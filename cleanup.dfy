/** Removal of cross-namespace and cluster-to-namespace OwnerReferences to
    ClusterServiceVersions, which OLM runs once on start-up (CVE-2019-3884).
    The Kubernetes clients are left out: the listed objects are inputs and the
    model reports which objects an update is issued for. */
module Cleanup {
  import opened Wrappers

  type UID = string

  /** metav1.NamespaceAll */
  const NamespaceAll: string := ""
  /** v1alpha1.ClusterServiceVersionKind */
  const ClusterServiceVersionKind: string := "ClusterServiceVersion"

  datatype OwnerReference = OwnerReference(kind: string, name: string, uid: UID)

  /** An item of a list response, as far as the clean-up reads it. */
  datatype ObjectMeta = ObjectMeta(uid: UID, namespace: string, ownerReferences: seq<OwnerReference>)

  /** A metav1.Object behind a pointer: the clean-up rewrites its owner references in place. */
  class MetaObject {
    var namespace: string
    var ownerReferences: seq<OwnerReference>

    constructor (item: ObjectMeta)
      ensures namespace == item.namespace && ownerReferences == item.ownerReferences
    {
      namespace := item.namespace;
      ownerReferences := item.ownerReferences;
    }
  }

  // ---------------------------------------------------------------------------
  // The UID -> namespace map

  /** uidNamespaces after the loop over the listed CSVs: a later CSV with the
      same UID overwrites an earlier one. */
  function UidNamespaces(csvs: seq<ObjectMeta>): (m: map<UID, string>)
    ensures forall uid :: uid in m <==> exists i :: 0 <= i < |csvs| && csvs[i].uid == uid
  {
    if |csvs| == 0 then map[]
    else
      var prefix := csvs[..|csvs| - 1];
      assert forall i :: 0 <= i < |prefix| ==> prefix[i] == csvs[i];
      UidNamespaces(prefix)[csvs[|csvs| - 1].uid := csvs[|csvs| - 1].namespace]
  }

  /** Every listed CSV's UID maps to that CSV's namespace, unless a later CSV
      carries the same UID. */
  lemma {:induction false} UidNamespacesLastWins(csvs: seq<ObjectMeta>, i: nat)
    requires i < |csvs|
    requires forall j :: i < j < |csvs| ==> csvs[j].uid != csvs[i].uid
    ensures csvs[i].uid in UidNamespaces(csvs)
    ensures UidNamespaces(csvs)[csvs[i].uid] == csvs[i].namespace
  {
    if i < |csvs| - 1 {
      var prefix := csvs[..|csvs| - 1];
      UidNamespacesLastWins(prefix, i);
    }
  }

  /** The loop at the start of cleanupOwnerReferences. */
  method BuildUidNamespaces(csvs: seq<ObjectMeta>) returns (m: map<UID, string>)
    ensures m == UidNamespaces(csvs)
  {
    m := map[];
    var i := 0;
    while i < |csvs|
      invariant i <= |csvs|
      invariant m == UidNamespaces(csvs[..i])
    {
      assert csvs[..i + 1][..i] == csvs[..i];
      m := m[csvs[i].uid := csvs[i].namespace];
      i := i + 1;
    }
    assert csvs[..i] == csvs;
  }

  // ---------------------------------------------------------------------------
  // The drop rule

  /** A reference survives when it is of another kind, or when its owner is
      known and lives either cluster-wide or in the object's own namespace. */
  predicate Keep(kind: string, uidNamespaces: map<UID, string>, objNamespace: string, ref: OwnerReference)
  {
    ref.kind != kind
    || (ref.uid in uidNamespaces
        && (uidNamespaces[ref.uid] == NamespaceAll || uidNamespaces[ref.uid] == objNamespace))
  }

  /** cleanRefs after the loop of the closure: the kept references, in order. */
  function CleanRefs(kind: string, uidNamespaces: map<UID, string>, objNamespace: string,
                     refs: seq<OwnerReference>): (r: seq<OwnerReference>)
    ensures |r| <= |refs|
    ensures forall x :: x in r <==> x in refs && Keep(kind, uidNamespaces, objNamespace, x)
  {
    if |refs| == 0 then []
    else
      var prefix := refs[..|refs| - 1];
      var last := refs[|refs| - 1];
      assert refs == prefix + [last];
      CleanRefs(kind, uidNamespaces, objNamespace, prefix)
        + (if Keep(kind, uidNamespaces, objNamespace, last) then [last] else [])
  }

  /** Some reference of the sequence is dropped. */
  predicate HasBadRef(kind: string, uidNamespaces: map<UID, string>, objNamespace: string,
                      refs: seq<OwnerReference>)
  {
    exists i :: 0 <= i < |refs| && !Keep(kind, uidNamespaces, objNamespace, refs[i])
  }

  /** `a` is `b` with some elements removed, the rest in their original order. */
  predicate IsSubsequence<T(==)>(a: seq<T>, b: seq<T>)
  {
    if |a| == 0 then true
    else if |b| == 0 then false
    else (a[|a| - 1] == b[|b| - 1] && IsSubsequence(a[..|a| - 1], b[..|b| - 1]))
         || IsSubsequence(a, b[..|b| - 1])
  }

  /** The references that remain keep their relative order. */
  lemma {:induction false} CleanRefsKeepsOrder(kind: string, uidNamespaces: map<UID, string>,
                                               objNamespace: string, refs: seq<OwnerReference>)
    ensures IsSubsequence(CleanRefs(kind, uidNamespaces, objNamespace, refs), refs)
  {
    var r := CleanRefs(kind, uidNamespaces, objNamespace, refs);
    if |refs| > 0 {
      var prefix := refs[..|refs| - 1];
      var last := refs[|refs| - 1];
      var rp := CleanRefs(kind, uidNamespaces, objNamespace, prefix);
      CleanRefsKeepsOrder(kind, uidNamespaces, objNamespace, prefix);
      if Keep(kind, uidNamespaces, objNamespace, last) {
        assert r[..|r| - 1] == rp;
      } else {
        assert r == rp;
      }
    }
  }

  /** Each kept reference stays as often as it occurs; a dropped one is gone. */
  lemma {:induction false} CleanRefsCounts(kind: string, uidNamespaces: map<UID, string>,
                                           objNamespace: string, refs: seq<OwnerReference>)
    ensures forall x :: multiset(CleanRefs(kind, uidNamespaces, objNamespace, refs))[x]
                        == if Keep(kind, uidNamespaces, objNamespace, x) then multiset(refs)[x] else 0
  {
    if |refs| > 0 {
      var prefix := refs[..|refs| - 1];
      var last := refs[|refs| - 1];
      CleanRefsCounts(kind, uidNamespaces, objNamespace, prefix);
      CleanRefsSnoc(kind, uidNamespaces, objNamespace, refs);
      assert refs == prefix + [last];
      assert multiset(refs) == multiset(prefix) + multiset([last]);
    }
  }

  /** CleanRefs of a sequence, from CleanRefs of all but its last element. */
  lemma CleanRefsSnoc(kind: string, uidNamespaces: map<UID, string>, objNamespace: string,
                      refs: seq<OwnerReference>)
    requires |refs| > 0
    ensures CleanRefs(kind, uidNamespaces, objNamespace, refs)
            == CleanRefs(kind, uidNamespaces, objNamespace, refs[..|refs| - 1])
               + (if Keep(kind, uidNamespaces, objNamespace, refs[|refs| - 1]) then [refs[|refs| - 1]] else [])
  {
  }

  /** HasBadRef of a sequence, from HasBadRef of all but its last element. */
  lemma HasBadRefSnoc(kind: string, uidNamespaces: map<UID, string>, objNamespace: string,
                      refs: seq<OwnerReference>)
    requires |refs| > 0
    ensures HasBadRef(kind, uidNamespaces, objNamespace, refs)
            <==> HasBadRef(kind, uidNamespaces, objNamespace, refs[..|refs| - 1])
                 || !Keep(kind, uidNamespaces, objNamespace, refs[|refs| - 1])
  {
    var prefix := refs[..|refs| - 1];
    assert forall i :: 0 <= i < |prefix| ==> prefix[i] == refs[i];
  }

  /** Nothing is dropped exactly when no reference breaks the rule; the
      references are then left as they were. */
  lemma {:induction false} CleanRefsShorterIffBadRef(kind: string, uidNamespaces: map<UID, string>,
                                                     objNamespace: string, refs: seq<OwnerReference>)
    ensures HasBadRef(kind, uidNamespaces, objNamespace, refs)
            <==> |CleanRefs(kind, uidNamespaces, objNamespace, refs)| < |refs|
    ensures !HasBadRef(kind, uidNamespaces, objNamespace, refs)
            ==> CleanRefs(kind, uidNamespaces, objNamespace, refs) == refs
  {
    if |refs| > 0 {
      var prefix := refs[..|refs| - 1];
      CleanRefsShorterIffBadRef(kind, uidNamespaces, objNamespace, prefix);
      HasBadRefSnoc(kind, uidNamespaces, objNamespace, refs);
      assert refs == prefix + [refs[|refs| - 1]];
    }
  }

  /** A reference of another kind is always kept. */
  lemma OtherKindKept(kind: string, uidNamespaces: map<UID, string>, objNamespace: string,
                      refs: seq<OwnerReference>, ref: OwnerReference)
    requires ref in refs && ref.kind != kind
    ensures ref in CleanRefs(kind, uidNamespaces, objNamespace, refs)
  {
  }

  /** A reference of the kind is dropped when its UID is unknown, or when its
      owner's namespace is neither NamespaceAll nor the object's own. */
  lemma BadRefDropped(kind: string, uidNamespaces: map<UID, string>, objNamespace: string,
                      refs: seq<OwnerReference>, ref: OwnerReference)
    requires ref.kind == kind
    requires ref.uid !in uidNamespaces
             || (uidNamespaces[ref.uid] != NamespaceAll && uidNamespaces[ref.uid] != objNamespace)
    ensures ref !in CleanRefs(kind, uidNamespaces, objNamespace, refs)
  {
  }

  /** The loop of the closure returned by crossNamespaceOwnerReferenceRemoval:
      it collects the kept references of an object in namespace objNamespace
      and notes whether any was dropped. */
  method FilterOwnerReferences(kind: string, uidNamespaces: map<UID, string>, objNamespace: string,
                               refs: seq<OwnerReference>)
    returns (cleanRefs: seq<OwnerReference>, mutated: bool)
    ensures cleanRefs == CleanRefs(kind, uidNamespaces, objNamespace, refs)
    ensures mutated <==> HasBadRef(kind, uidNamespaces, objNamespace, refs)
  {
    cleanRefs := [];
    mutated := false;
    var i := 0;
    while i < |refs|
      invariant i <= |refs|
      invariant cleanRefs == CleanRefs(kind, uidNamespaces, objNamespace, refs[..i])
      invariant mutated <==> HasBadRef(kind, uidNamespaces, objNamespace, refs[..i])
    {
      var ref := refs[i];
      assert refs[..i + 1][..i] == refs[..i];
      CleanRefsSnoc(kind, uidNamespaces, objNamespace, refs[..i + 1]);
      HasBadRefSnoc(kind, uidNamespaces, objNamespace, refs[..i + 1]);
      if ref.kind == kind {
        var ok := ref.uid in uidNamespaces;
        if !ok || (uidNamespaces[ref.uid] != NamespaceAll && uidNamespaces[ref.uid] != objNamespace) {
          mutated := true;
          i := i + 1;
          continue;
        }
      }
      cleanRefs := cleanRefs + [ref];
      i := i + 1;
    }
    assert refs[..i] == refs;
  }

  /** The closure returned by crossNamespaceOwnerReferenceRemoval, applied to
      obj: the owner references are replaced only when one was dropped. */
  method RemoveBadRefs(kind: string, uidNamespaces: map<UID, string>, obj: MetaObject)
    returns (mutated: bool)
    modifies obj
    ensures obj.namespace == old(obj.namespace)
    ensures mutated <==> HasBadRef(kind, uidNamespaces, obj.namespace, old(obj.ownerReferences))
    ensures obj.ownerReferences
            == CleanRefs(kind, uidNamespaces, obj.namespace, old(obj.ownerReferences))
    ensures !mutated ==> obj.ownerReferences == old(obj.ownerReferences)
  {
    var cleanRefs;
    cleanRefs, mutated := FilterOwnerReferences(kind, uidNamespaces, obj.namespace, obj.ownerReferences);
    if mutated {
      obj.ownerReferences := cleanRefs;
    } else {
      CleanRefsShorterIffBadRef(kind, uidNamespaces, obj.namespace, obj.ownerReferences);
    }
  }

  // ---------------------------------------------------------------------------
  // Collecting the objects to scrub

  /** One object per listed item, each its own pointer, in list order. */
  method CollectObjects(items: seq<ObjectMeta>) returns (objs: seq<MetaObject>)
    ensures |objs| == |items|
    ensures forall k :: 0 <= k < |objs| ==> fresh(objs[k])
    ensures forall k, l :: 0 <= k < l < |objs| ==> objs[k] != objs[l]
    ensures forall k :: 0 <= k < |objs| ==>
              objs[k].namespace == items[k].namespace
              && objs[k].ownerReferences == items[k].ownerReferences
  {
    objs := [];
    var i := 0;
    while i < |items|
      invariant i <= |items| && |objs| == i
      invariant forall k :: 0 <= k < i ==> fresh(objs[k])
      invariant forall k, l :: 0 <= k < l < i ==> objs[k] != objs[l]
      invariant forall k :: 0 <= k < i ==>
                  objs[k].namespace == items[k].namespace
                  && objs[k].ownerReferences == items[k].ownerReferences
    {
      var obj := new MetaObject(items[i]);
      objs := objs + [obj];
      i := i + 1;
    }
  }

  /** The loops `for _, obj := range list.Items { objs = append(objs, &obj) }`
      as written: under the loop-variable semantics the vendored code was
      built with (one variable for the whole loop), every appended pointer is
      the address of the same variable, which ends up holding the last item. */
  method CollectRangeAliased(items: seq<ObjectMeta>) returns (objs: seq<MetaObject>)
    ensures |objs| == |items|
    ensures forall k :: 0 <= k < |objs| ==> fresh(objs[k])
    ensures forall k :: 0 <= k < |objs| ==> objs[k] == objs[0]
    ensures |items| > 0 ==>
              objs[0].namespace == items[|items| - 1].namespace
              && objs[0].ownerReferences == items[|items| - 1].ownerReferences
  {
    objs := [];
    if |items| == 0 {
      return;
    }
    var obj := new MetaObject(items[0]);
    var i := 0;
    while i < |items|
      invariant i <= |items| && |objs| == i
      invariant forall k :: 0 <= k < i ==> objs[k] == obj
      invariant fresh(obj)
      invariant i > 0 ==> obj.namespace == items[i - 1].namespace
                          && obj.ownerReferences == items[i - 1].ownerReferences
    {
      obj.namespace, obj.ownerReferences := items[i].namespace, items[i].ownerReferences;
      objs := objs + [obj];
      i := i + 1;
    }
  }

  /** Two role bindings in one list, only the first pointing across
      namespaces. One pointer per item would issue one update; with the
      aliased collection both collected entries are the second binding, the
      first one's bad reference is never looked at and removeBadRefs reports
      no change for either entry, so no update is issued. */
  method AliasedCollectionMissesBadRef()
    returns (items: seq<ObjectMeta>, uidNamespaces: map<UID, string>, objs: seq<MetaObject>,
             mutations: seq<bool>)
    ensures |items| == 2
    ensures HasBadRef(ClusterServiceVersionKind, uidNamespaces, items[0].namespace, items[0].ownerReferences)
    ensures ItemsToUpdate(ClusterServiceVersionKind, uidNamespaces, items) == [0]
    ensures |objs| == 2 && objs[0] == objs[1]
    ensures mutations == [false, false]
  {
    var owner := OwnerReference(ClusterServiceVersionKind, "etcd", "uid-1");
    var bad := ObjectMeta("uid-2", "ns-a", [owner]);
    var good := ObjectMeta("uid-3", "ns-b", []);
    items := [bad, good];
    uidNamespaces := map["uid-1" := "ns-b"];
    assert bad.ownerReferences[0] == owner;
    assert !Keep(ClusterServiceVersionKind, uidNamespaces, bad.namespace, owner);
    assert !HasBadRef(ClusterServiceVersionKind, uidNamespaces, good.namespace, good.ownerReferences);
    assert items[..1] == [bad] && [bad][..0] == [];
    ItemsToUpdateSnoc(ClusterServiceVersionKind, uidNamespaces, items);
    ItemsToUpdateSnoc(ClusterServiceVersionKind, uidNamespaces, [bad]);
    objs := CollectRangeAliased(items);
    mutations := [];
    var i := 0;
    while i < |objs|
      invariant i <= |objs| && |mutations| == i
      invariant forall k :: 0 <= k < i ==> !mutations[k]
      invariant objs[0].ownerReferences == []
    {
      var mutated := RemoveBadRefs(ClusterServiceVersionKind, uidNamespaces, objs[i]);
      mutations := mutations + [mutated];
      i := i + 1;
    }
  }

  // ---------------------------------------------------------------------------
  // cleanupOwnerReferences

  /** Positions, in order, of the items that have a reference to drop. */
  function ItemsToUpdate(kind: string, uidNamespaces: map<UID, string>, items: seq<ObjectMeta>): (r: seq<nat>)
    ensures forall k: nat :: k in r <==>
              k < |items| && HasBadRef(kind, uidNamespaces, items[k].namespace, items[k].ownerReferences)
    ensures forall a :: 0 <= a < |r| ==> r[a] < |items|
    ensures forall a, b :: 0 <= a < b < |r| ==> r[a] < r[b]
  {
    if |items| == 0 then []
    else
      var prefix := items[..|items| - 1];
      var last := items[|items| - 1];
      assert forall k :: 0 <= k < |prefix| ==> prefix[k] == items[k];
      var rp := ItemsToUpdate(kind, uidNamespaces, prefix);
      rp
        + (if HasBadRef(kind, uidNamespaces, last.namespace, last.ownerReferences) then [|items| - 1] else [])
  }

  /** ItemsToUpdate of a sequence, from ItemsToUpdate of all but its last element. */
  lemma ItemsToUpdateSnoc(kind: string, uidNamespaces: map<UID, string>, items: seq<ObjectMeta>)
    requires |items| > 0
    ensures ItemsToUpdate(kind, uidNamespaces, items)
            == ItemsToUpdate(kind, uidNamespaces, items[..|items| - 1])
               + (if HasBadRef(kind, uidNamespaces, items[|items| - 1].namespace, items[|items| - 1].ownerReferences)
                  then [|items| - 1] else [])
  {
  }

  /** The i-th turn of the loop over the collected objects adds i when the
      i-th item has a reference to drop. */
  lemma ItemsToUpdateStep(kind: string, uidNamespaces: map<UID, string>, items: seq<ObjectMeta>, i: int)
    requires 0 <= i < |items|
    ensures ItemsToUpdate(kind, uidNamespaces, items[..i + 1])
            == ItemsToUpdate(kind, uidNamespaces, items[..i])
               + (if HasBadRef(kind, uidNamespaces, items[i].namespace, items[i].ownerReferences) then [i] else [])
  {
    assert items[..i + 1][..i] == items[..i];
    ItemsToUpdateSnoc(kind, uidNamespaces, items[..i + 1]);
  }

  /** obj still holds item. */
  predicate Holds(obj: MetaObject, item: ObjectMeta)
    reads obj
  {
    obj.namespace == item.namespace && obj.ownerReferences == item.ownerReferences
  }

  /** obj holds item with its bad references removed. */
  predicate Scrubbed(kind: string, uidNamespaces: map<UID, string>, obj: MetaObject, item: ObjectMeta)
    reads obj
  {
    obj.namespace == item.namespace
    && obj.ownerReferences == CleanRefs(kind, uidNamespaces, item.namespace, item.ownerReferences)
  }

  /** The loop of cleanupOwnerReferences over the collected objects: each one
      is scrubbed, and an update is issued exactly for those whose references
      changed; the others are skipped. */
  method ScrubObjects(kind: string, uidNamespaces: map<UID, string>,
                      objs: seq<MetaObject>, items: seq<ObjectMeta>)
    returns (updated: seq<nat>)
    requires |objs| == |items|
    requires forall k, l :: 0 <= k < l < |objs| ==> objs[k] != objs[l]
    requires forall k :: 0 <= k < |objs| ==> Holds(objs[k], items[k])
    modifies objs
    ensures forall k :: 0 <= k < |objs| ==> Scrubbed(kind, uidNamespaces, objs[k], items[k])
    ensures updated == ItemsToUpdate(kind, uidNamespaces, items)
  {
    updated := [];
    var i := 0;
    while i < |objs|
      invariant i <= |objs|
      invariant forall k :: 0 <= k < i ==> Scrubbed(kind, uidNamespaces, objs[k], items[k])
      invariant forall k :: i <= k < |objs| ==> Holds(objs[k], items[k])
      invariant updated == ItemsToUpdate(kind, uidNamespaces, items[..i])
    {
      ItemsToUpdateStep(kind, uidNamespaces, items, i);
      var mutated := RemoveBadRefs(kind, uidNamespaces, objs[i]);
      if mutated {
        updated := updated + [i];
      }
      i := i + 1;
    }
    assert items[..i] == items;
  }

  /** cleanupOwnerReferences with one pointer per listed item. `csvs` is the
      outcome of listing the CSVs of all namespaces; the other four lists are
      taken as returned, their errors being ignored by the source. The result
      `updated` holds the positions, in the concatenation of the five lists,
      of the objects for which an update is issued. */
  method CleanupOwnerReferences(csvs: Result<seq<ObjectMeta>, string>,
                                clusterRoles: seq<ObjectMeta>, clusterRoleBindings: seq<ObjectMeta>,
                                roles: seq<ObjectMeta>, roleBindings: seq<ObjectMeta>)
    returns (err: Option<string>, objs: seq<MetaObject>, updated: seq<nat>)
    ensures csvs.Err? ==> err == Some(csvs.error) && objs == [] && updated == []
    ensures csvs.Ok? ==>
              var items := csvs.value + clusterRoles + clusterRoleBindings + roles + roleBindings;
              var uidNamespaces := UidNamespaces(csvs.value);
              err.None?
              && |objs| == |items|
              && (forall k :: 0 <= k < |objs| ==>
                    Scrubbed(ClusterServiceVersionKind, uidNamespaces, objs[k], items[k]))
              && updated == ItemsToUpdate(ClusterServiceVersionKind, uidNamespaces, items)
  {
    if csvs.Err? {
      return Some(csvs.error), [], [];
    }
    err := None;
    var uidNamespaces := BuildUidNamespaces(csvs.value);
    var items := csvs.value + clusterRoles + clusterRoleBindings + roles + roleBindings;
    objs := CollectObjects(items);
    updated := ScrubObjects(ClusterServiceVersionKind, uidNamespaces, objs, items);
  }
}
