/** The parse-tree equivalence checker of buildtools' printer tests, and the
    discipline with which those tests set and reset the global formatting
    switches of the `tables` package.

    Go reflection is replaced by a closed datatype of values: every value the
    checker can meet is invalid (the zero reflect.Value), a scalar, a slice, a
    struct with named and typed fields, a pointer or an interface; anything
    else is `Other` and only carries its kind name. */
module PrintTest {
  import opened Wrappers

  /** A reflect.Type, by its printed name. */
  type TypeName = string

  /** build.Position; only Line is printed. */
  datatype Position = Position(line: int, lineRune: int, byte: int)

  const ZeroPosition: Position := Position(0, 0, 0)

  const ParenType: TypeName := "*build.ParenExpr"
  const PosType: TypeName := "build.Position"
  const CommentsType: TypeName := "build.Comments"
  const StringExprType: TypeName := "build.StringExpr"

  datatype Kind =
    | InvalidKind | BoolKind | IntKind | StringKind
    | SliceKind | StructKind | PtrKind | InterfaceKind
    | OtherKind(name: string)

  datatype Field = Field(name: string, ftype: TypeName, value: Value)

  /** A reflect.Value. A pointer carries the start of its Span when its type
      implements build.Expr. */
  datatype Value =
    | Invalid
    | Bool(t: TypeName, b: bool)
    | Int(t: TypeName, i: int)
    | Str(t: TypeName, s: string)
    | Slice(t: TypeName, elemType: TypeName, elems: seq<Value>)
    | Struct(t: TypeName, fields: seq<Field>)
    | Ptr(t: TypeName, elemType: TypeName, target: Option<Value>, span: Option<Position>)
    | Iface(t: TypeName, content: Option<Value>)
    | Other(t: TypeName, kindName: string)

  function KindOf(v: Value): Kind
  {
    match v
    case Invalid => InvalidKind
    case Bool(_, _) => BoolKind
    case Int(_, _) => IntKind
    case Str(_, _) => StringKind
    case Slice(_, _, _) => SliceKind
    case Struct(_, _) => StructKind
    case Ptr(_, _, _, _) => PtrKind
    case Iface(_, _) => InterfaceKind
    case Other(_, k) => OtherKind(k)
  }

  /** reflect.Kind.String */
  function KindName(k: Kind): string
  {
    match k
    case InvalidKind => "invalid"
    case BoolKind => "bool"
    case IntKind => "int"
    case StringKind => "string"
    case SliceKind => "slice"
    case StructKind => "struct"
    case PtrKind => "ptr"
    case InterfaceKind => "interface"
    case OtherKind(name) => name
  }

  // ---------------------------------------------------------------------------
  // Size, for termination

  function Size(v: Value): (n: nat)
    ensures n >= 1
  {
    match v
    case Slice(_, _, elems) => 1 + ElemsSize(elems)
    case Struct(_, fields) => 1 + FieldsSize(fields)
    case Ptr(_, _, target, _) => 1 + (if target.Some? then Size(target.value) else 0)
    case Iface(_, content) => 1 + (if content.Some? then Size(content.value) else 0)
    case _ => 1
  }

  function ElemsSize(vs: seq<Value>): nat
  {
    if |vs| == 0 then 0 else Size(vs[0]) + ElemsSize(vs[1..])
  }

  function FieldsSize(fs: seq<Field>): nat
  {
    if |fs| == 0 then 0 else Size(fs[0].value) + FieldsSize(fs[1..])
  }

  /** v.Type(); the zero Value has no type. */
  function TypeOf(v: Value): TypeName
    requires !v.Invalid?
  {
    v.t
  }

  // ---------------------------------------------------------------------------
  // inner

  /** v.FieldByName(name): the first field of that name, or the zero Value. */
  function FieldByName(fields: seq<Field>, name: string): (r: Value)
    ensures Size(r) <= FieldsSize(fields) || r == Invalid
    ensures r != Invalid ==> exists i :: 0 <= i < |fields| && fields[i].name == name && fields[i].value == r
  {
    if |fields| == 0 then Invalid
    else if fields[0].name == name then fields[0].value
    else
      var r := FieldByName(fields[1..], name);
      assert r != Invalid ==> exists i :: 1 <= i < |fields| && fields[i].name == name && fields[i].value == r by {
        if r != Invalid {
          var i :| 0 <= i < |fields[1..]| && fields[1..][i].name == name && fields[1..][i].value == r;
          assert fields[i + 1] == fields[1..][i];
        }
      }
      r
  }

  /** v.Elem().FieldByName("X") for a *ParenExpr v. A nil *ParenExpr makes
      the source panic; it unwraps to the zero Value here. */
  function ParenX(v: Value): (r: Value)
    ensures Size(r) < Size(v) || r == Invalid
  {
    if v.Ptr? && v.target.Some? && v.target.value.Struct? then FieldByName(v.target.value.fields, "X")
    else Invalid
  }

  /** A value inner leaves alone: invalid, or neither a *ParenExpr nor a
      non-nil interface. */
  predicate Innermost(v: Value)
  {
    v.Invalid? || (v.t != ParenType && !(v.Iface? && v.content.Some?))
  }

  /** inner: the innermost expression, unwrapping parentheses (X) to X and a
      non-nil interface to its concrete value, repeatedly. */
  function Inner(v: Value): (r: Value)
    decreases Size(v)
    ensures Innermost(r)
    ensures Size(r) <= Size(v)
  {
    if v.Invalid? then v
    else if v.t == ParenType then
      var x := ParenX(v);
      if x == Invalid then Invalid else Inner(x)
    else if v.Iface? && v.content.Some? then Inner(v.content.value)
    else v
  }

  /** The loop of inner. */
  method Unwrap(v: Value) returns (r: Value)
    ensures r == Inner(v)
  {
    r := v;
    while !r.Invalid?
      invariant Inner(r) == Inner(v)
      decreases if r.Invalid? then 0 else Size(r)
    {
      if r.t == ParenType {
        r := ParenX(r);
        continue;
      }
      if r.Iface? && r.content.Some? {
        r := r.content.value;
        continue;
      }
      break;
    }
  }

  // ---------------------------------------------------------------------------
  // Errors

  datatype Scalar = BoolValue(b: bool) | IntValue(i: int) | StringValue(s: string)

  /** The text after "file:line: " of each error checkValue can return. */
  datatype Msg =
    | KindChanged(oldKind: string, newKind: string)     // "%s became %s" of the kinds
    | TypeChanged(oldType: TypeName, newType: TypeName) // "%s became %s" of the types
    | ScalarChanged(oldValue: Scalar, newValue: Scalar) // "%v became %v" of the values
    | Unexpected(typ: TypeName)                         // "unexpected %s"
    | Missing(typ: TypeName)                            // "missing %s"
    | UnexpectedType(typ: TypeName)                     // "unexpected type %s"

  /** The result of errorf: the file and the line of the current position. */
  datatype CheckError = CheckError(file: string, line: int, msg: Msg)

  /** The error (if any) and the checker's position afterwards. */
  datatype Outcome = Outcome(err: Option<CheckError>, pos: Position)

  function Fail(file: string, pos: Position, msg: Msg): Outcome
  {
    Outcome(Some(CheckError(file, pos.line, msg)), pos)
  }

  /** Ignored struct fields: positions, comments, MultiLine, LineBreak, and
      the raw Token of a StringExpr. */
  predicate Ignored(structType: TypeName, f: Field)
  {
    f.ftype == PosType || f.ftype == CommentsType
    || f.name == "MultiLine" || f.name == "LineBreak"
    || (structType == StringExprType && f.name == "Token")
  }

  /** The position after visiting iv: the start of its Span when it is an Expr. */
  function Visit(pos: Position, iv: Value): Position
  {
    if iv.Ptr? && iv.span.Some? then iv.span.value else pos
  }

  // ---------------------------------------------------------------------------
  // checkValue

  /** checkValue(v, w) started with the checker at pos. */
  function CheckValue(file: string, pos: Position, v: Value, w: Value): (o: Outcome)
    decreases Size(v), 2
    ensures o.err.Some? ==> o.err.value.file == file && o.err.value.line == o.pos.line
  {
    CheckInner(file, pos, Inner(v), Inner(w))
  }

  /** checkValue after both values went through inner: the kind and type
      checks, and the position update for an Expr. */
  function CheckInner(file: string, pos: Position, iv: Value, iw: Value): (o: Outcome)
    decreases Size(iv), 1
    ensures o.err.Some? ==> o.err.value.file == file && o.err.value.line == o.pos.line
  {
    if KindOf(iv) != KindOf(iw) then Fail(file, pos, KindChanged(KindName(KindOf(iv)), KindName(KindOf(iw))))
    else if iv.Invalid? then Outcome(None, pos)
    else if iv.t != iw.t then Fail(file, pos, TypeChanged(iv.t, iw.t))
    else CheckSwitch(file, Visit(pos, iv), iv, iw)
  }

  /** The switch of checkValue on the common kind of two valid values of the
      same type. */
  function CheckSwitch(file: string, pos: Position, iv: Value, iw: Value): (o: Outcome)
    requires KindOf(iv) == KindOf(iw) && !iv.Invalid?
    decreases Size(iv), 0
    ensures o.err.Some? ==> o.err.value.file == file && o.err.value.line == o.pos.line
    ensures iv.Other? ==> o == Fail(file, pos, UnexpectedType(iv.t))
  {
    match iv
    case Bool(_, b) =>
      if b != iw.b then Fail(file, pos, ScalarChanged(BoolValue(b), BoolValue(iw.b))) else Outcome(None, pos)
    case Int(_, i) =>
      if i != iw.i then Fail(file, pos, ScalarChanged(IntValue(i), IntValue(iw.i))) else Outcome(None, pos)
    case Str(_, s) =>
      if s != iw.s then Fail(file, pos, ScalarChanged(StringValue(s), StringValue(iw.s))) else Outcome(None, pos)
    case Slice(_, elemType, elems) =>
      CheckElems(file, pos, elemType, iw.elemType, elems, iw.elems)
    case Struct(t, fields) =>
      CheckFields(file, pos, t, fields, iw.fields)
    case Ptr(_, elemType, target, _) =>
      if target.None? && iw.target.Some? then Fail(file, pos, Unexpected(iw.elemType))
      else if target.Some? && iw.target.None? then Fail(file, pos, Missing(elemType))
      else if target.None? then Outcome(None, pos)
      else CheckValue(file, pos, target.value, iw.target.value)
    case Iface(_, _) =>
      // inner leaves only nil interfaces: both are nil, and their two zero
      // Elem values compare equal
      Outcome(None, pos)
    case Other(t, _) => Fail(file, pos, UnexpectedType(t))
  }

  /** The loop over the elements of two slices, from the first of vs and ws. */
  function CheckElems(file: string, pos: Position, vElemType: TypeName, wElemType: TypeName,
                      vs: seq<Value>, ws: seq<Value>): (o: Outcome)
    decreases ElemsSize(vs), 3
    ensures o.err.Some? ==> o.err.value.file == file && o.err.value.line == o.pos.line
    ensures o.err.None? ==> |vs| == |ws|
  {
    if |vs| == 0 && |ws| == 0 then Outcome(None, pos)
    else if |vs| == 0 then Fail(file, pos, Unexpected(wElemType))
    else if |ws| == 0 then Fail(file, pos, Missing(vElemType))
    else
      var o := CheckValue(file, pos, vs[0], ws[0]);
      if o.err.Some? then o
      else CheckElems(file, o.pos, vElemType, wElemType, vs[1..], ws[1..])
  }

  /** The value of the field at the same place in w's struct. */
  function Counterpart(ws: seq<Field>): Value
  {
    if |ws| == 0 then Invalid else ws[0].value
  }

  function Rest<T>(s: seq<T>): seq<T>
  {
    if |s| == 0 then [] else s[1..]
  }

  /** The loop over the fields of v's struct type, from the first of vs. */
  function CheckFields(file: string, pos: Position, structType: TypeName,
                       vs: seq<Field>, ws: seq<Field>): (o: Outcome)
    decreases FieldsSize(vs), 3
    ensures o.err.Some? ==> o.err.value.file == file && o.err.value.line == o.pos.line
  {
    if |vs| == 0 then Outcome(None, pos)
    else if Ignored(structType, vs[0]) then CheckFields(file, pos, structType, vs[1..], Rest(ws))
    else
      var o := CheckValue(file, pos, vs[0].value, Counterpart(ws));
      if o.err.Some? then o
      else CheckFields(file, o.pos, structType, vs[1..], Rest(ws))
  }

  /** w.Field(i): the field at the same place in w's struct (the zero Value
      when w's struct is shorter, which equal types rule out). */
  function FieldAt(ws: seq<Field>, i: nat): Value
  {
    if i < |ws| then ws[i].value else Invalid
  }

  function Drop<T>(s: seq<T>, i: nat): seq<T>
  {
    if i <= |s| then s[i..] else []
  }

  lemma ElemSize(vs: seq<Value>, i: nat)
    requires i < |vs|
    ensures Size(vs[i]) <= ElemsSize(vs)
  {
    if i > 0 {
      ElemSize(vs[1..], i - 1);
    }
  }

  lemma FieldSize(fs: seq<Field>, i: nat)
    requires i < |fs|
    ensures Size(fs[i].value) <= FieldsSize(fs)
  {
    if i > 0 {
      FieldSize(fs[1..], i - 1);
    }
  }

  // ---------------------------------------------------------------------------
  // The checker object

  /** eqchecker: the file name errors are reported against, and the position
      of the most recently visited expression. */
  class EqChecker {
    var file: string
    var pos: Position

    constructor (file: string)
      ensures this.file == file && pos == ZeroPosition
    {
      this.file := file;
      pos := ZeroPosition;
    }

    /** errorf: an error at the current file and line. */
    method Errorf(msg: Msg) returns (e: CheckError)
      ensures e == CheckError(file, pos.line, msg)
    {
      e := CheckError(file, pos.line, msg);
    }

    /** check: the first difference between v and w, if any. */
    method Check(v: Value, w: Value) returns (err: Option<CheckError>)
      modifies this
      ensures file == old(file)
      ensures Outcome(err, pos) == CheckValue(file, old(pos), v, w)
    {
      err := CheckValueOf(v, w);
    }

    /** checkValue */
    method CheckValueOf(v: Value, w: Value) returns (err: Option<CheckError>)
      modifies this
      decreases Size(v), 2
      ensures file == old(file)
      ensures Outcome(err, pos) == CheckValue(file, old(pos), v, w)
    {
      var iv := Unwrap(v);
      var iw := Unwrap(w);
      err := CheckInnerOf(iv, iw);
    }

    /** checkValue after inner. */
    method CheckInnerOf(iv: Value, iw: Value) returns (err: Option<CheckError>)
      modifies this
      decreases Size(iv), 1
      ensures file == old(file)
      ensures Outcome(err, pos) == CheckInner(file, old(pos), iv, iw)
    {
      if KindOf(iv) != KindOf(iw) {
        var e := Errorf(KindChanged(KindName(KindOf(iv)), KindName(KindOf(iw))));
        return Some(e);
      }
      if iv.Invalid? {
        return None;
      }
      if iv.t != iw.t {
        var e := Errorf(TypeChanged(iv.t, iw.t));
        return Some(e);
      }
      if iv.Ptr? && iv.span.Some? {
        pos := iv.span.value;
      }
      err := CheckSwitchOf(iv, iw);
    }

    /** The switch of checkValue. */
    method CheckSwitchOf(iv: Value, iw: Value) returns (err: Option<CheckError>)
      requires KindOf(iv) == KindOf(iw) && !iv.Invalid?
      modifies this
      decreases Size(iv), 0
      ensures file == old(file)
      ensures Outcome(err, pos) == CheckSwitch(file, old(pos), iv, iw)
    {
      match iv {
        case Bool(_, b) =>
          if b != iw.b {
            var e := Errorf(ScalarChanged(BoolValue(b), BoolValue(iw.b)));
            return Some(e);
          }
        case Int(_, i) =>
          if i != iw.i {
            var e := Errorf(ScalarChanged(IntValue(i), IntValue(iw.i)));
            return Some(e);
          }
        case Str(_, s) =>
          if s != iw.s {
            var e := Errorf(ScalarChanged(StringValue(s), StringValue(iw.s)));
            return Some(e);
          }
        case Slice(_, elemType, elems) =>
          err := CheckElemsOf(elemType, iw.elemType, elems, iw.elems);
          return;
        case Struct(t, fields) =>
          err := CheckFieldsOf(t, fields, iw.fields);
          return;
        case Ptr(_, elemType, target, _) =>
          if target.None? != iw.target.None? {
            if target.None? {
              var e := Errorf(Unexpected(iw.elemType));
              return Some(e);
            }
            var e := Errorf(Missing(elemType));
            return Some(e);
          }
          if target.Some? {
            err := CheckValueOf(target.value, iw.target.value);
            return;
          }
        case Iface(_, _) =>
        case Other(t, _) =>
          var e := Errorf(UnexpectedType(t));
          return Some(e);
      }
      return None;
    }

    /** The loop of checkValue over the elements of two slices. */
    method CheckElemsOf(vElemType: TypeName, wElemType: TypeName, vs: seq<Value>, ws: seq<Value>)
      returns (err: Option<CheckError>)
      modifies this
      decreases ElemsSize(vs), 3
      ensures file == old(file)
      ensures Outcome(err, pos) == CheckElems(file, old(pos), vElemType, wElemType, vs, ws)
    {
      var vl := |vs|;
      var wl := |ws|;
      var i := 0;
      while i < vl || i < wl
        invariant i <= vl && i <= wl
        invariant file == old(file)
        invariant CheckElems(file, old(pos), vElemType, wElemType, vs, ws)
                  == CheckElems(file, pos, vElemType, wElemType, vs[i..], ws[i..])
        decreases vl - i
      {
        if i >= vl {
          var e := Errorf(Unexpected(wElemType));
          return Some(e);
        }
        if i >= wl {
          var e := Errorf(Missing(vElemType));
          return Some(e);
        }
        ElemSize(vs, i);
        err := CheckValueOf(vs[i], ws[i]);
        if err.Some? {
          return;
        }
        assert vs[i..][1..] == vs[i + 1..] && ws[i..][1..] == ws[i + 1..];
        i := i + 1;
      }
      return None;
    }

    /** The loop of checkValue over the fields of a struct type. */
    method CheckFieldsOf(structType: TypeName, vs: seq<Field>, ws: seq<Field>)
      returns (err: Option<CheckError>)
      modifies this
      decreases FieldsSize(vs), 3
      ensures file == old(file)
      ensures Outcome(err, pos) == CheckFields(file, old(pos), structType, vs, ws)
    {
      var n := |vs|;
      var i := 0;
      while i < n
        invariant i <= n
        invariant file == old(file)
        invariant CheckFields(file, old(pos), structType, vs, ws)
                  == CheckFields(file, pos, structType, vs[i..], Drop(ws, i))
      {
        var tf := vs[i];
        assert Rest(Drop(ws, i)) == Drop(ws, i + 1);
        assert vs[i..][1..] == vs[i + 1..];
        if !Ignored(structType, tf) {
          FieldSize(vs, i);
          err := CheckValueOf(tf.value, FieldAt(ws, i));
          if err.Some? {
            return;
          }
        }
        i := i + 1;
      }
      return None;
    }
  }

  // ---------------------------------------------------------------------------
  // Rendering

  function DigitChar(d: nat): char
    requires d < 10
  {
    ('0' as int + d) as char
  }

  /** The number a run of decimal digits denotes, most significant first. */
  function DecValue(s: string): nat
    requires forall k :: 0 <= k < |s| ==> '0' <= s[k] <= '9'
  {
    if |s| == 0 then 0
    else DecValue(s[..|s| - 1]) * 10 + (s[|s| - 1] as int - '0' as int)
  }

  /** %d of a non-negative int: its decimal digits, with no leading zero. */
  function NatText(n: nat): (s: string)
    ensures |s| > 0
    ensures forall k :: 0 <= k < |s| ==> '0' <= s[k] <= '9'
    ensures DecValue(s) == n
    ensures s[0] == '0' ==> n == 0
  {
    if n < 10 then [DigitChar(n)]
    else
      var s := NatText(n / 10) + [DigitChar(n % 10)];
      assert s[..|s| - 1] == NatText(n / 10);
      assert DecValue(s) == (n / 10) * 10 + n % 10;
      s
  }

  /** %d: a minus sign before the digits of a negative number. */
  function IntText(i: int): (s: string)
    ensures i < 0 ==> |s| > 1 && s[0] == '-' && s[1..] == NatText(-i)
    ensures i >= 0 ==> s == NatText(i)
  {
    if i < 0 then "-" + NatText(-i) else NatText(i)
  }

  /** %v of a bool, int or string. */
  function ScalarText(x: Scalar): string
  {
    match x
    case BoolValue(b) => if b then "true" else "false"
    case IntValue(i) => IntText(i)
    case StringValue(s) => s
  }

  function MsgText(m: Msg): string
  {
    match m
    case KindChanged(a, b) => a + " became " + b
    case TypeChanged(a, b) => a + " became " + b
    case ScalarChanged(a, b) => ScalarText(a) + " became " + ScalarText(b)
    case Unexpected(t) => "unexpected " + t
    case Missing(t) => "missing " + t
    case UnexpectedType(t) => "unexpected type " + t
  }

  /** The text of an error: "file:line: message". */
  function ErrorText(e: CheckError): (r: string)
    ensures |r| == |e.file| + 1 + |IntText(e.line)| + 2 + |MsgText(e.msg)|
    ensures r[..|e.file| + 1] == e.file + ":"
    ensures r[|e.file| + 1..|e.file| + 1 + |IntText(e.line)|] == IntText(e.line)
    ensures r[|e.file| + 1 + |IntText(e.line)|..|r| - |MsgText(e.msg)|] == ": "
    ensures r[|r| - |MsgText(e.msg)|..] == MsgText(e.msg)
  {
    var r := e.file + ":" + IntText(e.line) + ": " + MsgText(e.msg);
    assert r == (e.file + ":") + (IntText(e.line) + ": " + MsgText(e.msg));
    assert r == (e.file + ":" + IntText(e.line) + ": ") + MsgText(e.msg);
    r
  }

  // ---------------------------------------------------------------------------
  // Properties of checkValue

  lemma InnermostFixed(v: Value)
    requires Innermost(v)
    ensures Inner(v) == v
  {
  }

  /** Unwrapping is repeated until nothing is left to unwrap: checking two
      values is checking their innermost expressions. */
  lemma CheckSeesInnermost(file: string, pos: Position, v: Value, w: Value)
    ensures CheckValue(file, pos, v, w) == CheckValue(file, pos, Inner(v), Inner(w))
  {
    InnermostFixed(Inner(v));
    InnermostFixed(Inner(w));
  }

  /** A parenthesised expression (X), on either side, is compared as X. */
  lemma ParenComparedAsX(file: string, pos: Position, p: Value, st: TypeName, fields: seq<Field>, w: Value)
    requires p.Ptr? && p.t == ParenType && p.target == Some(Struct(st, fields))
    ensures CheckValue(file, pos, p, w) == CheckValue(file, pos, FieldByName(fields, "X"), w)
    ensures CheckValue(file, pos, w, p) == CheckValue(file, pos, w, FieldByName(fields, "X"))
  {
  }

  /** A non-nil interface, on either side, is replaced by its concrete value. */
  lemma InterfaceComparedAsContent(file: string, pos: Position, t: TypeName, c: Value, w: Value)
    requires t != ParenType
    ensures CheckValue(file, pos, Iface(t, Some(c)), w) == CheckValue(file, pos, c, w)
    ensures CheckValue(file, pos, w, Iface(t, Some(c))) == CheckValue(file, pos, w, c)
  {
  }

  /** After unwrapping, different kinds are reported as "A became B" at the
      current line, and two absent values are equal. */
  lemma KindsCompared(file: string, pos: Position, v: Value, w: Value)
    ensures KindOf(Inner(v)) != KindOf(Inner(w)) ==>
              CheckValue(file, pos, v, w)
              == Outcome(Some(CheckError(file, pos.line,
                                         KindChanged(KindName(KindOf(Inner(v))), KindName(KindOf(Inner(w)))))), pos)
    ensures Inner(v).Invalid? && Inner(w).Invalid? ==> CheckValue(file, pos, v, w) == Outcome(None, pos)
  {
  }

  /** After unwrapping, values of one kind but different types are reported
      as "T became U". */
  lemma TypesCompared(file: string, pos: Position, v: Value, w: Value)
    requires KindOf(Inner(v)) == KindOf(Inner(w)) && !Inner(v).Invalid?
    requires Inner(v).t != Inner(w).t
    ensures CheckValue(file, pos, v, w)
            == Outcome(Some(CheckError(file, pos.line, TypeChanged(Inner(v).t, Inner(w).t))), pos)
  {
  }

  /** Bool, int and string scalars of one type are compared by value, and a
      difference is reported as "old became new". */
  lemma ScalarsCompared(file: string, pos: Position, v: Value, w: Value)
    requires Inner(v).Bool? || Inner(v).Int? || Inner(v).Str?
    requires KindOf(Inner(v)) == KindOf(Inner(w)) && Inner(v).t == Inner(w).t
    ensures CheckValue(file, pos, v, w).err.None? <==> Inner(v) == Inner(w)
    ensures Inner(v).Int? && Inner(v).i != Inner(w).i ==>
              CheckValue(file, pos, v, w).err
              == Some(CheckError(file, pos.line, ScalarChanged(IntValue(Inner(v).i), IntValue(Inner(w).i))))
    ensures Inner(v).Bool? && Inner(v).b != Inner(w).b ==>
              CheckValue(file, pos, v, w).err
              == Some(CheckError(file, pos.line, ScalarChanged(BoolValue(Inner(v).b), BoolValue(Inner(w).b))))
    ensures Inner(v).Str? && Inner(v).s != Inner(w).s ==>
              CheckValue(file, pos, v, w).err
              == Some(CheckError(file, pos.line, ScalarChanged(StringValue(Inner(v).s), StringValue(Inner(w).s))))
  {
    assert CheckValue(file, pos, v, w) == CheckSwitch(file, Visit(pos, Inner(v)), Inner(v), Inner(w));
  }

  /** Nil-ness of two pointers of one type must agree: "unexpected T" when
      only the second is set, "missing T" when only the first is. */
  lemma PointerNilness(file: string, pos: Position, t: TypeName, vt: TypeName, wt: TypeName,
                       x: Option<Value>, y: Option<Value>, vs: Option<Position>, ws: Option<Position>)
    requires t != ParenType
    ensures var p := if vs.Some? then vs.value else pos;
            var o := CheckValue(file, pos, Ptr(t, vt, x, vs), Ptr(t, wt, y, ws));
            (x.None? && y.Some? ==> o == Outcome(Some(CheckError(file, p.line, Unexpected(wt))), p))
            && (x.Some? && y.None? ==> o == Outcome(Some(CheckError(file, p.line, Missing(vt))), p))
            && (x.None? && y.None? ==> o == Outcome(None, p))
            && (x.Some? && y.Some? ==> o == CheckValue(file, p, x.value, y.value))
  {
    var v, w := Ptr(t, vt, x, vs), Ptr(t, wt, y, ws);
    assert Inner(v) == v && Inner(w) == w;
    assert CheckValue(file, pos, v, w) == CheckSwitch(file, Visit(pos, v), v, w);
  }

  /** Slices of different lengths never pass: either an element differs or
      the first extra element is reported. */
  lemma {:induction false} SliceLengthsMustAgree(file: string, pos: Position, vt: TypeName, wt: TypeName,
                                                 vs: seq<Value>, ws: seq<Value>)
    requires |vs| != |ws|
    ensures CheckElems(file, pos, vt, wt, vs, ws).err.Some?
    decreases |vs|
  {
    if |vs| > 0 && |ws| > 0 {
      var o := CheckValue(file, pos, vs[0], ws[0]);
      if o.err.None? {
        SliceLengthsMustAgree(file, o.pos, vt, wt, vs[1..], ws[1..]);
      }
    }
  }

  /** When the elements both slices share compare equal, a longer second
      slice gives "unexpected T" and a longer first one "missing T". */
  lemma {:induction false} SliceLengthError(file: string, pos: Position, vt: TypeName, wt: TypeName,
                                            vs: seq<Value>, ws: seq<Value>)
    requires forall p: Position, i :: 0 <= i < |vs| && i < |ws| ==> CheckValue(file, p, vs[i], ws[i]).err.None?
    ensures |vs| < |ws| ==> var e := CheckElems(file, pos, vt, wt, vs, ws).err;
                              e.Some? && e.value.msg == Unexpected(wt)
    ensures |vs| > |ws| ==> var e := CheckElems(file, pos, vt, wt, vs, ws).err;
                              e.Some? && e.value.msg == Missing(vt)
    ensures |vs| == |ws| ==> CheckElems(file, pos, vt, wt, vs, ws).err.None?
    decreases |vs|
  {
    if |vs| > 0 && |ws| > 0 {
      var o := CheckValue(file, pos, vs[0], ws[0]);
      assert o.err.None?;
      forall p: Position, i | 0 <= i < |vs[1..]| && i < |ws[1..]|
        ensures CheckValue(file, p, vs[1..][i], ws[1..][i]).err.None?
      {
        assert vs[1..][i] == vs[i + 1] && ws[1..][i] == ws[i + 1];
      }
      SliceLengthError(file, o.pos, vt, wt, vs[1..], ws[1..]);
    }
  }

  /** A cosmetic field is never compared: changing its value on either side
      leaves the outcome of checking the fields as it was. */
  lemma {:induction false} IgnoredFieldNotCompared(file: string, pos: Position, st: TypeName,
                                                   vs: seq<Field>, ws: seq<Field>, j: nat, x: Value, y: Value)
    requires j < |vs| && j < |ws| && Ignored(st, vs[j])
    ensures CheckFields(file, pos, st, vs[j := vs[j].(value := x)], ws[j := ws[j].(value := y)])
            == CheckFields(file, pos, st, vs, ws)
    decreases j
  {
    var vs' := vs[j := vs[j].(value := x)];
    var ws' := ws[j := ws[j].(value := y)];
    if j == 0 {
      assert vs'[1..] == vs[1..] && Rest(ws') == Rest(ws);
    } else {
      assert vs'[0] == vs[0] && ws'[0] == ws[0];
      assert vs'[1..] == vs[1..][j - 1 := vs[j].(value := x)];
      assert Rest(ws') == ws[1..][j - 1 := ws[j].(value := y)];
      if Ignored(st, vs[0]) {
        IgnoredFieldNotCompared(file, pos, st, vs[1..], ws[1..], j - 1, x, y);
      } else {
        var o := CheckValue(file, pos, vs[0].value, Counterpart(ws));
        if o.err.None? {
          IgnoredFieldNotCompared(file, o.pos, st, vs[1..], ws[1..], j - 1, x, y);
        }
      }
    }
  }

  /** A StringExpr's raw Token is never compared. */
  lemma StringTokenNotCompared(file: string, pos: Position, vs: seq<Field>, ws: seq<Field>, j: nat, x: Value, y: Value)
    requires j < |vs| && j < |ws| && vs[j].name == "Token"
    ensures CheckFields(file, pos, StringExprType, vs[j := vs[j].(value := x)], ws[j := ws[j].(value := y)])
            == CheckFields(file, pos, StringExprType, vs, ws)
  {
    IgnoredFieldNotCompared(file, pos, StringExprType, vs, ws, j, x, y);
  }

  /** A value of an unsupported kind is reported as "unexpected type T" once
      the kind and type checks pass. */
  lemma UnsupportedKindReported(file: string, pos: Position, v: Value, w: Value)
    requires Inner(v).Other? && KindOf(Inner(w)) == KindOf(Inner(v)) && Inner(w).t == Inner(v).t
    ensures CheckValue(file, pos, v, w) == Outcome(Some(CheckError(file, pos.line, UnexpectedType(Inner(v).t))), pos)
  {
    assert CheckValue(file, pos, v, w) == CheckSwitch(file, pos, Inner(v), Inner(w));
  }

  // ---------------------------------------------------------------------------
  // The first difference

  /** The positions from which the elements the two slices share are
      compared: each element is checked where the one before it left the
      checker. */
  function ElemsPositions(file: string, pos: Position, vs: seq<Value>, ws: seq<Value>): (ps: seq<Position>)
    ensures |ps| == if |vs| < |ws| then |vs| else |ws|
    ensures |ps| > 0 ==> ps[0] == pos
    decreases |vs|
  {
    if |vs| == 0 || |ws| == 0 then []
    else [pos] + ElemsPositions(file, CheckValue(file, pos, vs[0], ws[0]).pos, vs[1..], ws[1..])
  }

  /** The j-th pair of elements compares equal from its position. */
  predicate ElemPasses(file: string, ps: seq<Position>, vs: seq<Value>, ws: seq<Value>, j: int)
    requires 0 <= j < |ps| && j < |vs| && j < |ws|
  {
    CheckValue(file, ps[j], vs[j], ws[j]).err.None?
  }

  /** Dropping the first pair of elements shifts the positions by one. */
  lemma ElemsPositionsTail(file: string, pos: Position, vs: seq<Value>, ws: seq<Value>)
    requires |vs| > 0 && |ws| > 0
    ensures var ps := ElemsPositions(file, pos, vs, ws);
            ElemsPositions(file, CheckValue(file, pos, vs[0], ws[0]).pos, vs[1..], ws[1..]) == ps[1..]
  {
  }

  /** When the first k pairs of elements compare equal and the k-th does
      not, the slices fail with the k-th pair's error. */
  lemma {:induction false} ElemsFirstDifference(file: string, pos: Position, vt: TypeName, wt: TypeName,
                                                vs: seq<Value>, ws: seq<Value>, k: nat)
    requires k < |vs| && k < |ws|
    requires forall j :: 0 <= j < k ==> ElemPasses(file, ElemsPositions(file, pos, vs, ws), vs, ws, j)
    requires !ElemPasses(file, ElemsPositions(file, pos, vs, ws), vs, ws, k)
    ensures CheckElems(file, pos, vt, wt, vs, ws)
            == CheckValue(file, ElemsPositions(file, pos, vs, ws)[k], vs[k], ws[k])
    decreases k
  {
    var ps := ElemsPositions(file, pos, vs, ws);
    if k > 0 {
      assert ElemPasses(file, ps, vs, ws, 0);
      var o := CheckValue(file, pos, vs[0], ws[0]);
      ElemsPositionsTail(file, pos, vs, ws);
      var qs := ElemsPositions(file, o.pos, vs[1..], ws[1..]);
      forall j | 0 <= j < k - 1
        ensures ElemPasses(file, qs, vs[1..], ws[1..], j)
      {
        assert ElemPasses(file, ps, vs, ws, j + 1);
        assert qs[j] == ps[j + 1] && vs[1..][j] == vs[j + 1] && ws[1..][j] == ws[j + 1];
      }
      assert qs[k - 1] == ps[k] && vs[1..][k - 1] == vs[k] && ws[1..][k - 1] == ws[k];
      ElemsFirstDifference(file, o.pos, vt, wt, vs[1..], ws[1..], k - 1);
    }
  }

  /** The first pair of elements that does not compare equal. */
  lemma FirstElemFailure(file: string, ps: seq<Position>, vs: seq<Value>, ws: seq<Value>, j: nat)
    returns (k: nat)
    requires j < |ps| && j < |vs| && j < |ws| && !ElemPasses(file, ps, vs, ws, j)
    ensures k <= j && !ElemPasses(file, ps, vs, ws, k)
    ensures forall i :: 0 <= i < k ==> ElemPasses(file, ps, vs, ws, i)
  {
    k := 0;
    while ElemPasses(file, ps, vs, ws, k)
      invariant k <= j
      invariant forall i :: 0 <= i < k ==> ElemPasses(file, ps, vs, ws, i)
      decreases j - k
    {
      k := k + 1;
    }
  }

  /** Two slices pass exactly when they have one length and every pair of
      elements compares equal from its position. */
  lemma {:induction false} ElemsPassIff(file: string, pos: Position, vt: TypeName, wt: TypeName,
                                        vs: seq<Value>, ws: seq<Value>)
    ensures CheckElems(file, pos, vt, wt, vs, ws).err.None?
            <==> |vs| == |ws|
                 && forall j :: 0 <= j < |vs| ==> ElemPasses(file, ElemsPositions(file, pos, vs, ws), vs, ws, j)
    decreases |vs|
  {
    var ps := ElemsPositions(file, pos, vs, ws);
    if exists j :: 0 <= j < |ps| && !ElemPasses(file, ps, vs, ws, j) {
      var j :| 0 <= j < |ps| && !ElemPasses(file, ps, vs, ws, j);
      var k := FirstElemFailure(file, ps, vs, ws, j);
      ElemsFirstDifference(file, pos, vt, wt, vs, ws, k);
    } else if |vs| != |ws| {
      SliceLengthsMustAgree(file, pos, vt, wt, vs, ws);
    } else if |vs| > 0 {
      assert ElemPasses(file, ps, vs, ws, 0);
      var o := CheckValue(file, pos, vs[0], ws[0]);
      ElemsPositionsTail(file, pos, vs, ws);
      var qs := ElemsPositions(file, o.pos, vs[1..], ws[1..]);
      forall j | 0 <= j < |vs| - 1
        ensures ElemPasses(file, qs, vs[1..], ws[1..], j)
      {
        assert ElemPasses(file, ps, vs, ws, j + 1);
        assert qs[j] == ps[j + 1] && vs[1..][j] == vs[j + 1] && ws[1..][j] == ws[j + 1];
      }
      ElemsPassIff(file, o.pos, vt, wt, vs[1..], ws[1..]);
    }
  }

  /** The positions from which the fields of v's struct are reached: a
      compared field moves the checker on, an ignored one does not. */
  function FieldsPositions(file: string, pos: Position, st: TypeName, vs: seq<Field>, ws: seq<Field>)
    : (ps: seq<Position>)
    ensures |ps| == |vs|
    ensures |ps| > 0 ==> ps[0] == pos
    decreases |vs|
  {
    if |vs| == 0 then []
    else if Ignored(st, vs[0]) then [pos] + FieldsPositions(file, pos, st, vs[1..], Rest(ws))
    else [pos] + FieldsPositions(file, CheckValue(file, pos, vs[0].value, Counterpart(ws)).pos, st, vs[1..], Rest(ws))
  }

  /** The j-th field is ignored or compares equal from its position. */
  predicate FieldPasses(file: string, ps: seq<Position>, st: TypeName, vs: seq<Field>, ws: seq<Field>, j: int)
    requires 0 <= j < |ps| && j < |vs|
  {
    Ignored(st, vs[j]) || CheckValue(file, ps[j], vs[j].value, FieldAt(ws, j)).err.None?
  }

  /** The first field checked against w's struct is its first field. */
  lemma CounterpartIs(ws: seq<Field>, j: nat)
    ensures Counterpart(ws) == FieldAt(ws, 0)
    ensures FieldAt(Rest(ws), j) == FieldAt(ws, j + 1)
  {
  }

  /** When every field before the k-th is ignored or compares equal and the
      k-th is compared and does not, the structs fail with the k-th field's
      error. */
  lemma {:induction false} FieldsFirstDifference(file: string, pos: Position, st: TypeName,
                                                 vs: seq<Field>, ws: seq<Field>, k: nat)
    requires k < |vs|
    requires forall j :: 0 <= j < k ==> FieldPasses(file, FieldsPositions(file, pos, st, vs, ws), st, vs, ws, j)
    requires !FieldPasses(file, FieldsPositions(file, pos, st, vs, ws), st, vs, ws, k)
    ensures CheckFields(file, pos, st, vs, ws)
            == CheckValue(file, FieldsPositions(file, pos, st, vs, ws)[k], vs[k].value, FieldAt(ws, k))
    decreases k
  {
    var ps := FieldsPositions(file, pos, st, vs, ws);
    CounterpartIs(ws, 0);
    if k > 0 {
      assert FieldPasses(file, ps, st, vs, ws, 0);
      var p := if Ignored(st, vs[0]) then pos else CheckValue(file, pos, vs[0].value, Counterpart(ws)).pos;
      var qs := FieldsPositions(file, p, st, vs[1..], Rest(ws));
      assert qs == ps[1..];
      forall j | 0 <= j < k - 1
        ensures FieldPasses(file, qs, st, vs[1..], Rest(ws), j)
      {
        assert FieldPasses(file, ps, st, vs, ws, j + 1);
        CounterpartIs(ws, j);
        assert qs[j] == ps[j + 1] && vs[1..][j] == vs[j + 1];
      }
      CounterpartIs(ws, k - 1);
      assert qs[k - 1] == ps[k] && vs[1..][k - 1] == vs[k];
      FieldsFirstDifference(file, p, st, vs[1..], Rest(ws), k - 1);
    }
  }

  /** The first field that is compared and does not compare equal. */
  lemma FirstFieldFailure(file: string, ps: seq<Position>, st: TypeName, vs: seq<Field>, ws: seq<Field>, j: nat)
    returns (k: nat)
    requires j < |ps| && j < |vs| && !FieldPasses(file, ps, st, vs, ws, j)
    ensures k <= j && !FieldPasses(file, ps, st, vs, ws, k)
    ensures forall i :: 0 <= i < k ==> FieldPasses(file, ps, st, vs, ws, i)
  {
    k := 0;
    while FieldPasses(file, ps, st, vs, ws, k)
      invariant k <= j
      invariant forall i :: 0 <= i < k ==> FieldPasses(file, ps, st, vs, ws, i)
      decreases j - k
    {
      k := k + 1;
    }
  }

  /** Two structs pass exactly when every field is ignored or compares equal
      from its position. */
  lemma {:induction false} FieldsPassIff(file: string, pos: Position, st: TypeName, vs: seq<Field>, ws: seq<Field>)
    ensures CheckFields(file, pos, st, vs, ws).err.None?
            <==> forall j :: 0 <= j < |vs| ==> FieldPasses(file, FieldsPositions(file, pos, st, vs, ws), st, vs, ws, j)
    decreases |vs|
  {
    var ps := FieldsPositions(file, pos, st, vs, ws);
    if exists j :: 0 <= j < |vs| && !FieldPasses(file, ps, st, vs, ws, j) {
      var j :| 0 <= j < |vs| && !FieldPasses(file, ps, st, vs, ws, j);
      var k := FirstFieldFailure(file, ps, st, vs, ws, j);
      FieldsFirstDifference(file, pos, st, vs, ws, k);
    } else if |vs| > 0 {
      CounterpartIs(ws, 0);
      assert FieldPasses(file, ps, st, vs, ws, 0);
      var p := if Ignored(st, vs[0]) then pos else CheckValue(file, pos, vs[0].value, Counterpart(ws)).pos;
      var qs := FieldsPositions(file, p, st, vs[1..], Rest(ws));
      assert qs == ps[1..];
      forall j | 0 <= j < |vs| - 1
        ensures FieldPasses(file, qs, st, vs[1..], Rest(ws), j)
      {
        assert FieldPasses(file, ps, st, vs, ws, j + 1);
        CounterpartIs(ws, j);
        assert qs[j] == ps[j + 1] && vs[1..][j] == vs[j + 1];
      }
      FieldsPassIff(file, p, st, vs[1..], Rest(ws));
    }
  }

  // ---------------------------------------------------------------------------
  // Normal forms: an independent account of what checkValue compares

  /** The parse tree with parentheses and interfaces unwrapped, pointer spans
      forgotten and every cosmetic field blanked. */
  function Normalize(v: Value): Value
    decreases Size(v), 1
  {
    NormalizeInner(Inner(v))
  }

  function NormalizeInner(iv: Value): (r: Value)
    decreases Size(iv), 0
    ensures KindOf(r) == KindOf(iv)
    ensures !iv.Invalid? ==> r.t == iv.t
  {
    match iv
    case Slice(t, et, elems) => Slice(t, et, NormalizeElems(elems))
    case Struct(t, fields) => Struct(t, NormalizeFields(t, fields))
    case Ptr(t, et, target, _) => Ptr(t, et, if target.Some? then Some(Normalize(target.value)) else None, None)
    case _ => iv
  }

  function NormalizeElems(vs: seq<Value>): (r: seq<Value>)
    decreases ElemsSize(vs), 2
    ensures |r| == |vs|
  {
    if |vs| == 0 then [] else [Normalize(vs[0])] + NormalizeElems(vs[1..])
  }

  function NormalizeFields(st: TypeName, fs: seq<Field>): (r: seq<Field>)
    decreases FieldsSize(fs), 2
    ensures |r| == |fs|
  {
    if |fs| == 0 then []
    else
      var f := fs[0];
      [Field(f.name, f.ftype, if Ignored(st, f) then Invalid else Normalize(f.value))]
        + NormalizeFields(st, fs[1..])
  }

  /** A normal form checkValue can compare: nothing of an unsupported kind
      outside the cosmetic fields. */
  predicate Comparable(nv: Value)
  {
    match nv
    case Other(_, _) => false
    case Slice(_, _, elems) => forall i :: 0 <= i < |elems| ==> Comparable(elems[i])
    case Struct(_, fields) => forall i :: 0 <= i < |fields| ==> Comparable(fields[i].value)
    case Ptr(_, _, target, _) => target.None? || Comparable(target.value)
    case _ => true
  }

  /** Two trees with the same normal form compare equal, wherever the
      checker starts. */
  lemma {:induction false} SameNormalFormPasses(file: string, pos: Position, v: Value, w: Value)
    requires Normalize(v) == Normalize(w) && Comparable(Normalize(v))
    ensures CheckValue(file, pos, v, w).err.None?
    decreases Size(v), 2
  {
    SameNormalFormPassesInner(file, pos, Inner(v), Inner(w));
  }

  lemma {:induction false} SameNormalFormPassesInner(file: string, pos: Position, iv: Value, iw: Value)
    requires NormalizeInner(iv) == NormalizeInner(iw) && Comparable(NormalizeInner(iv))
    ensures CheckInner(file, pos, iv, iw).err.None?
    decreases Size(iv), 1
  {
    if !iv.Invalid? {
      var p := Visit(pos, iv);
      match iv
      case Slice(_, et, elems) =>
        SameNormalFormPassesElems(file, p, et, iw.elemType, elems, iw.elems);
      case Struct(t, fields) =>
        SameNormalFormPassesFields(file, p, t, fields, iw.fields);
      case Ptr(_, _, target, _) =>
        if target.Some? {
          SameNormalFormPasses(file, p, target.value, iw.target.value);
        }
      case _ =>
    }
  }

  lemma {:induction false} SameNormalFormPassesElems(file: string, pos: Position, vt: TypeName, wt: TypeName,
                                                     vs: seq<Value>, ws: seq<Value>)
    requires NormalizeElems(vs) == NormalizeElems(ws)
    requires forall i :: 0 <= i < |vs| ==> Comparable(NormalizeElems(vs)[i])
    ensures CheckElems(file, pos, vt, wt, vs, ws).err.None?
    decreases ElemsSize(vs), 3
  {
    if |vs| > 0 {
      assert NormalizeElems(vs)[0] == Normalize(vs[0]) && NormalizeElems(ws)[0] == Normalize(ws[0]);
      SameNormalFormPasses(file, pos, vs[0], ws[0]);
      var o := CheckValue(file, pos, vs[0], ws[0]);
      assert NormalizeElems(vs[1..]) == NormalizeElems(vs)[1..] && NormalizeElems(ws[1..]) == NormalizeElems(ws)[1..];
      forall i | 0 <= i < |vs[1..]|
        ensures Comparable(NormalizeElems(vs[1..])[i])
      {
        assert NormalizeElems(vs[1..])[i] == NormalizeElems(vs)[i + 1];
      }
      SameNormalFormPassesElems(file, o.pos, vt, wt, vs[1..], ws[1..]);
    }
  }

  lemma {:induction false} SameNormalFormPassesFields(file: string, pos: Position, st: TypeName,
                                                      vs: seq<Field>, ws: seq<Field>)
    requires NormalizeFields(st, vs) == NormalizeFields(st, ws)
    requires forall i :: 0 <= i < |vs| ==> Comparable(NormalizeFields(st, vs)[i].value)
    ensures CheckFields(file, pos, st, vs, ws).err.None?
    decreases FieldsSize(vs), 3
  {
    if |vs| > 0 {
      var h := NormalizeFields(st, vs)[0];
      assert h == NormalizeFields(st, ws)[0];
      assert NormalizeFields(st, vs[1..]) == NormalizeFields(st, vs)[1..];
      assert NormalizeFields(st, ws[1..]) == NormalizeFields(st, ws)[1..];
      assert Counterpart(ws) == ws[0].value && Rest(ws) == ws[1..];
      forall i | 0 <= i < |vs[1..]|
        ensures Comparable(NormalizeFields(st, vs[1..])[i].value)
      {
        assert NormalizeFields(st, vs[1..])[i] == NormalizeFields(st, vs)[i + 1];
      }
      if Ignored(st, vs[0]) {
        SameNormalFormPassesFields(file, pos, st, vs[1..], ws[1..]);
      } else {
        SameNormalFormPasses(file, pos, vs[0].value, ws[0].value);
        var o := CheckValue(file, pos, vs[0].value, ws[0].value);
        SameNormalFormPassesFields(file, o.pos, st, vs[1..], ws[1..]);
      }
    }
  }

  /** A tree is equal to itself unless it holds a value of an unsupported kind. */
  lemma CheckReflexive(file: string, pos: Position, v: Value)
    requires Comparable(Normalize(v))
    ensures CheckValue(file, pos, v, v).err.None?
  {
    SameNormalFormPasses(file, pos, v, v);
  }

  /** What a named type fixes about its values, as Go's type system does: a
      slice or pointer type its element type, a struct type the names and
      types of its fields, in order. */
  datatype Shape = SliceOf(elemType: TypeName) | PtrTo(elemType: TypeName) | StructOf(decls: seq<(string, TypeName)>)

  function Decls(fs: seq<Field>): (r: seq<(string, TypeName)>)
    ensures |r| == |fs|
    ensures forall i :: 0 <= i < |fs| ==> r[i] == (fs[i].name, fs[i].ftype)
  {
    if |fs| == 0 then [] else [(fs[0].name, fs[0].ftype)] + Decls(fs[1..])
  }

  /** Every slice, struct and pointer inside v has the shape its type names. */
  predicate Typed(types: map<TypeName, Shape>, v: Value)
  {
    match v
    case Slice(t, et, elems) =>
      t in types && types[t] == SliceOf(et) && forall i :: 0 <= i < |elems| ==> Typed(types, elems[i])
    case Struct(t, fields) =>
      t in types && types[t] == StructOf(Decls(fields))
      && forall i :: 0 <= i < |fields| ==> Typed(types, fields[i].value)
    case Ptr(t, et, target, _) =>
      t in types && types[t] == PtrTo(et) && (target.Some? ==> Typed(types, target.value))
    case Iface(_, content) => content.Some? ==> Typed(types, content.value)
    case _ => true
  }

  lemma {:induction false} InnerTyped(types: map<TypeName, Shape>, v: Value)
    requires Typed(types, v)
    ensures Typed(types, Inner(v))
    decreases Size(v)
  {
    if !v.Invalid? && v.t == ParenType {
      var x := ParenX(v);
      if x != Invalid {
        var fields := v.target.value.fields;
        var i :| 0 <= i < |fields| && fields[i].name == "X" && fields[i].value == x;
        InnerTyped(types, x);
      }
    } else if !v.Invalid? && v.Iface? && v.content.Some? {
      InnerTyped(types, v.content.value);
    }
  }

  /** The converse of SameNormalFormPasses: two well-typed trees that
      checkValue finds equal have one normal form, with nothing of an
      unsupported kind in it. Any difference outside the cosmetic fields is
      therefore reported. */
  lemma {:induction false} PassMeansSameNormalForm(types: map<TypeName, Shape>, file: string, pos: Position,
                                                   v: Value, w: Value)
    requires Typed(types, v) && Typed(types, w)
    requires CheckValue(file, pos, v, w).err.None?
    ensures Normalize(v) == Normalize(w) && Comparable(Normalize(v))
    decreases Size(v), 2
  {
    InnerTyped(types, v);
    InnerTyped(types, w);
    PassMeansSameNormalFormInner(types, file, pos, Inner(v), Inner(w));
  }

  lemma {:induction false} PassMeansSameNormalFormInner(types: map<TypeName, Shape>, file: string, pos: Position,
                                                        iv: Value, iw: Value)
    requires Typed(types, iv) && Typed(types, iw) && Innermost(iv) && Innermost(iw)
    requires CheckInner(file, pos, iv, iw).err.None?
    ensures NormalizeInner(iv) == NormalizeInner(iw) && Comparable(NormalizeInner(iv))
    decreases Size(iv), 1
  {
    if !iv.Invalid? {
      var p := Visit(pos, iv);
      assert CheckSwitch(file, p, iv, iw).err.None?;
      match iv
      case Slice(t, et, elems) =>
        PassMeansSameNormalFormElems(types, file, p, et, iw.elemType, elems, iw.elems);
      case Struct(t, fields) =>
        PassMeansSameNormalFormFields(types, file, p, t, fields, iw.fields);
      case Ptr(t, et, target, _) =>
        if target.Some? {
          PassMeansSameNormalForm(types, file, p, target.value, iw.target.value);
        }
      case _ =>
    }
  }

  lemma {:induction false} PassMeansSameNormalFormElems(types: map<TypeName, Shape>, file: string, pos: Position,
                                                        vt: TypeName, wt: TypeName, vs: seq<Value>, ws: seq<Value>)
    requires forall i :: 0 <= i < |vs| ==> Typed(types, vs[i])
    requires forall i :: 0 <= i < |ws| ==> Typed(types, ws[i])
    requires CheckElems(file, pos, vt, wt, vs, ws).err.None?
    ensures NormalizeElems(vs) == NormalizeElems(ws)
    ensures forall i :: 0 <= i < |vs| ==> Comparable(NormalizeElems(vs)[i])
    decreases ElemsSize(vs), 3
  {
    if |vs| > 0 {
      var o := CheckValue(file, pos, vs[0], ws[0]);
      PassMeansSameNormalForm(types, file, pos, vs[0], ws[0]);
      PassMeansSameNormalFormElems(types, file, o.pos, vt, wt, vs[1..], ws[1..]);
      assert NormalizeElems(vs) == [Normalize(vs[0])] + NormalizeElems(vs[1..]);
      forall i | 0 <= i < |vs|
        ensures Comparable(NormalizeElems(vs)[i])
      {
        if i > 0 {
          assert NormalizeElems(vs)[i] == NormalizeElems(vs[1..])[i - 1];
        }
      }
    }
  }

  lemma {:induction false} PassMeansSameNormalFormFields(types: map<TypeName, Shape>, file: string, pos: Position,
                                                         st: TypeName, vs: seq<Field>, ws: seq<Field>)
    requires Decls(vs) == Decls(ws)
    requires forall i :: 0 <= i < |vs| ==> Typed(types, vs[i].value)
    requires forall i :: 0 <= i < |ws| ==> Typed(types, ws[i].value)
    requires CheckFields(file, pos, st, vs, ws).err.None?
    ensures NormalizeFields(st, vs) == NormalizeFields(st, ws)
    ensures forall i :: 0 <= i < |vs| ==> Comparable(NormalizeFields(st, vs)[i].value)
    decreases FieldsSize(vs), 3
  {
    if |vs| > 0 {
      assert Decls(vs)[0] == Decls(ws)[0];
      assert Decls(vs[1..]) == Decls(vs)[1..] && Decls(ws[1..]) == Decls(ws)[1..];
      assert Counterpart(ws) == ws[0].value && Rest(ws) == ws[1..];
      var p := pos;
      if !Ignored(st, vs[0]) {
        PassMeansSameNormalForm(types, file, pos, vs[0].value, ws[0].value);
        p := CheckValue(file, pos, vs[0].value, ws[0].value).pos;
      }
      PassMeansSameNormalFormFields(types, file, p, st, vs[1..], ws[1..]);
      NormalizeFieldsCons(st, vs);
      NormalizeFieldsCons(st, ws);
      ComparableFieldsCons(NormalizeFields(st, vs)[0], NormalizeFields(st, vs[1..]));
    }
  }

  lemma NormalizeFieldsCons(st: TypeName, fs: seq<Field>)
    requires |fs| > 0
    ensures NormalizeFields(st, fs)
            == [Field(fs[0].name, fs[0].ftype, if Ignored(st, fs[0]) then Invalid else Normalize(fs[0].value))]
               + NormalizeFields(st, fs[1..])
  {
  }

  lemma ComparableFieldsCons(h: Field, rest: seq<Field>)
    requires Comparable(h.value) && forall i :: 0 <= i < |rest| ==> Comparable(rest[i].value)
    ensures forall i :: 0 <= i < |[h] + rest| ==> Comparable(([h] + rest)[i].value)
  {
  }

  /** checkValue decides exactly the equality of normal forms, for trees
      whose types fix their shape and hold nothing of an unsupported kind. */
  lemma CheckIffSameNormalForm(types: map<TypeName, Shape>, file: string, pos: Position, v: Value, w: Value)
    requires Typed(types, v) && Typed(types, w)
    ensures CheckValue(file, pos, v, w).err.None? <==> Normalize(v) == Normalize(w) && Comparable(Normalize(v))
  {
    if CheckValue(file, pos, v, w).err.None? {
      PassMeansSameNormalForm(types, file, pos, v, w);
    }
    if Normalize(v) == Normalize(w) && Comparable(Normalize(v)) {
      SameNormalFormPasses(file, pos, v, w);
    }
  }

  /** Cosmetic differences are invisible: a tree and the same tree with its
      parentheses and interfaces unwrapped have one normal form. */
  lemma NormalizeSeesInnermost(v: Value)
    ensures Normalize(Inner(v)) == Normalize(v)
  {
    InnermostFixed(Inner(v));
  }

  // ---------------------------------------------------------------------------
  // Positions

  /** The Span starts of all Expr pointers inside v. */
  function Spans(v: Value): set<Position>
    decreases Size(v), 0
  {
    match v
    case Slice(_, _, elems) => ElemsSpans(elems)
    case Struct(_, fields) => FieldsSpans(fields)
    case Ptr(_, _, target, span) =>
      (if span.Some? then {span.value} else {}) + (if target.Some? then Spans(target.value) else {})
    case Iface(_, content) => if content.Some? then Spans(content.value) else {}
    case _ => {}
  }

  function ElemsSpans(vs: seq<Value>): set<Position>
    decreases ElemsSize(vs), 1
  {
    if |vs| == 0 then {} else Spans(vs[0]) + ElemsSpans(vs[1..])
  }

  function FieldsSpans(fs: seq<Field>): set<Position>
    decreases FieldsSize(fs), 1
  {
    if |fs| == 0 then {} else Spans(fs[0].value) + FieldsSpans(fs[1..])
  }

  lemma {:induction false} FieldByNameSpans(fs: seq<Field>, name: string)
    ensures Spans(FieldByName(fs, name)) <= FieldsSpans(fs)
  {
    if |fs| > 0 && fs[0].name != name {
      FieldByNameSpans(fs[1..], name);
    }
  }

  lemma {:induction false} InnerSpans(v: Value)
    ensures Spans(Inner(v)) <= Spans(v)
    decreases Size(v)
  {
    if !v.Invalid? && v.t == ParenType {
      var x := ParenX(v);
      if x != Invalid {
        FieldByNameSpans(v.target.value.fields, "X");
        InnerSpans(x);
      }
    } else if !v.Invalid? && v.Iface? && v.content.Some? {
      InnerSpans(v.content.value);
    }
  }

  /** The line errorf prints is the start of an expression visited in the
      first tree, or the line the check started from. */
  lemma {:induction false} PositionVisited(file: string, pos: Position, v: Value, w: Value)
    ensures var o := CheckValue(file, pos, v, w);
            o.pos == pos || o.pos in Spans(v)
    decreases Size(v), 2
  {
    InnerSpans(v);
    PositionVisitedInner(file, pos, Inner(v), Inner(w));
  }

  lemma {:induction false} PositionVisitedInner(file: string, pos: Position, iv: Value, iw: Value)
    ensures var o := CheckInner(file, pos, iv, iw);
            o.pos == pos || o.pos in Spans(iv)
    decreases Size(iv), 1
  {
    if KindOf(iv) == KindOf(iw) && !iv.Invalid? && iv.t == iw.t {
      var p := Visit(pos, iv);
      assert p == pos || p in Spans(iv);
      match iv
      case Slice(_, et, elems) =>
        PositionVisitedElems(file, p, et, iw.elemType, elems, iw.elems);
      case Struct(t, fields) =>
        PositionVisitedFields(file, p, t, fields, iw.fields);
      case Ptr(_, _, target, _) =>
        if target.Some? && iw.target.Some? {
          PositionVisited(file, p, target.value, iw.target.value);
        }
      case _ =>
    }
  }

  lemma {:induction false} PositionVisitedElems(file: string, pos: Position, vt: TypeName, wt: TypeName,
                                                vs: seq<Value>, ws: seq<Value>)
    ensures var o := CheckElems(file, pos, vt, wt, vs, ws);
            o.pos == pos || o.pos in ElemsSpans(vs)
    decreases ElemsSize(vs), 3
  {
    if |vs| > 0 && |ws| > 0 {
      PositionVisited(file, pos, vs[0], ws[0]);
      var o := CheckValue(file, pos, vs[0], ws[0]);
      if o.err.None? {
        PositionVisitedElems(file, o.pos, vt, wt, vs[1..], ws[1..]);
      }
    }
  }

  lemma {:induction false} PositionVisitedFields(file: string, pos: Position, st: TypeName,
                                                 vs: seq<Field>, ws: seq<Field>)
    ensures var o := CheckFields(file, pos, st, vs, ws);
            o.pos == pos || o.pos in FieldsSpans(vs)
    decreases FieldsSize(vs), 3
  {
    if |vs| > 0 {
      if Ignored(st, vs[0]) {
        PositionVisitedFields(file, pos, st, vs[1..], Rest(ws));
      } else {
        PositionVisited(file, pos, vs[0].value, Counterpart(ws));
        var o := CheckValue(file, pos, vs[0].value, Counterpart(ws));
        if o.err.None? {
          PositionVisitedFields(file, o.pos, st, vs[1..], Rest(ws));
        }
      }
    }
  }

  /** Every error names the file and the line of a visited expression (or
      the starting line). */
  lemma ErrorLocation(file: string, pos: Position, v: Value, w: Value)
    requires CheckValue(file, pos, v, w).err.Some?
    ensures var e := CheckValue(file, pos, v, w).err.value;
            e.file == file
            && (e.line == pos.line || exists p :: p in Spans(v) && e.line == p.line)
  {
    PositionVisited(file, pos, v, w);
  }
}
