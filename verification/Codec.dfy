/** The conversion between JSON and typed records that the derived (de)serialisers of src/events.rs perform,
    driven by a description of the record type. */
module Codec {
  import opened Wrappers
  import opened Json

  // ---- Record types ----

  /** Types of fields and items. A record either collects the members it has no field for, or drops them. */
  datatype Ty =
    | TStr
    | TInt
    | TFloat
    | TBool
    | TVec(item: Ty)
    | TRec(fields: map<string, Field>, keepsExtra: bool)

  /** A field that is missing is an error, takes the default of its type, or is absent; an absent one may
      be given as null, too. */
  datatype Kind = Needed | Defaulted | Optional

  datatype Field = Field(ty: Ty, kind: Kind)

  datatype Val =
    | VStr(s: string)
    | VInt(i: int)
    | VFloat(f: F64)
    | VBool(b: bool)
    | VVec(items: seq<Val>)
    | VRec(vals: map<string, Option<Val>>, extra: map<string, Json>)

  // ---- Values of a type ----

  predicate HasTy(ty: Ty, v: Val)
    decreases ty
  {
    match ty
    case TStr => v.VStr?
    case TInt => v.VInt? && IsI64(v.i)
    case TFloat => v.VFloat?
    case TBool => v.VBool?
    case TVec(t) => v.VVec? && forall i | 0 <= i < |v.items| :: HasTy(t, v.items[i])
    case TRec(fields, keepsExtra) =>
      v.VRec? && v.vals.Keys == fields.Keys && (keepsExtra || v.extra == map[]) &&
      forall name <- fields :: HasFieldTy(fields[name], v.vals[name])
  }

  predicate HasFieldTy(field: Field, held: Option<Val>)
    decreases field
  {
    if held.None? then field.kind.Optional? else HasTy(field.ty, held.value)
  }

  function Default(ty: Ty): Val
    decreases ty
  {
    match ty
    case TStr => VStr("")
    case TInt => VInt(0)
    case TFloat => VFloat(Finite(0.0))
    case TBool => VBool(false)
    case TVec(_) => VVec([])
    case TRec(fields, _) => VRec(map name <- fields :: DefaultField(fields[name]), map[])
  }

  function DefaultField(field: Field): Option<Val>
    decreases field
  {
    if field.kind.Optional? then None else Some(Default(field.ty))
  }

  // ---- Parsing ----

  /** The members that no field is for. */
  function Extra(j: Json, names: set<string>): map<string, Json> {
    if j.Obj? then map key <- j.members | key !in names :: j.members[key] else map[]
  }

  function Parse(ty: Ty, j: Json): Option<Val>
    decreases ty, 0
  {
    match ty
    case TStr => if j.Str? then Some(VStr(j.s)) else None
    case TInt => if j.Int? && IsI64(j.i) then Some(VInt(j.i)) else None
    case TFloat => if AsF64(j).Some? then Some(VFloat(AsF64(j).value)) else None
    case TBool => if j.Bool? then Some(VBool(j.b)) else None
    case TVec(t) =>
      if !j.Arr? then None
      else (match ParseAll(t, j.items)
            case None => None
            case Some(items) => Some(VVec(items)))
    case TRec(fields, keepsExtra) =>
      if j.Obj? && forall name <- fields :: ParseField(fields[name], Member(j, name)).Some?
      then Some(VRec(map name <- fields :: ParseField(fields[name], Member(j, name)).value,
                     if keepsExtra then Extra(j, fields.Keys) else map[]))
      else None
  }

  function ParseAll(ty: Ty, items: seq<Json>): (r: Option<seq<Val>>)
    decreases ty, |items| + 1
  {
    if items == [] then Some([])
    else
      match Parse(ty, items[0])
      case None => None
      case Some(first) =>
        match ParseAll(ty, items[1..])
        case None => None
        case Some(others) => Some([first] + others)
  }

  /** `None` is an error, `Some(None)` an absent field. */
  function ParseField(field: Field, found: Option<Json>): Option<Option<Val>>
    decreases field, 0
  {
    if found.None? then
      if field.kind.Needed? then None else Some(DefaultField(field))
    else if field.kind.Optional? && found.value.Null? then Some(None)
    else
      match Parse(field.ty, found.value)
      case None => None
      case Some(v) => Some(Some(v))
  }

  // ---- Printing ----

  /** A collected member that is called like a field replaces it. */
  function Print(ty: Ty, v: Val): Json
    requires HasTy(ty, v)
    decreases ty
  {
    match ty
    case TStr => Str(v.s)
    case TInt => Int(v.i)
    case TFloat => FromF64(v.f)
    case TBool => Bool(v.b)
    case TVec(t) => Arr(seq(|v.items|, i requires 0 <= i < |v.items| => Print(t, v.items[i])))
    case TRec(fields, _) => Obj((map name <- fields :: PrintField(fields[name], v.vals[name])) + v.extra)
  }

  function PrintField(field: Field, held: Option<Val>): Json
    requires HasFieldTy(field, held)
    decreases field
  {
    if held.None? then Null else Print(field.ty, held.value)
  }

  // ---- Which values survive ----

  /** All floats are finite, and no collected member is called like a field. */
  predicate Faithful(ty: Ty, v: Val)
    requires HasTy(ty, v)
    decreases ty
  {
    match ty
    case TFloat => v.f.Finite?
    case TVec(t) => forall i | 0 <= i < |v.items| :: Faithful(t, v.items[i])
    case TRec(fields, _) =>
      v.extra.Keys !! fields.Keys && forall name <- fields :: FaithfulField(fields[name], v.vals[name])
    case _ => true
  }

  predicate FaithfulField(field: Field, held: Option<Val>)
    requires HasFieldTy(field, held)
    decreases field
  {
    held.Some? ==> Faithful(field.ty, held.value)
  }

  // ---- What is parsed has its type and survives ----

  lemma {:induction false} DefaultIsFaithful(ty: Ty)
    ensures HasTy(ty, Default(ty)) && Faithful(ty, Default(ty))
    decreases ty
  {
    if ty.TRec? {
      forall name <- ty.fields
        ensures HasFieldTy(ty.fields[name], DefaultField(ty.fields[name]))
        ensures FaithfulField(ty.fields[name], DefaultField(ty.fields[name]))
      {
        DefaultIsFaithful(ty.fields[name].ty);
      }
    }
  }

  lemma {:induction false} ParsedIsFaithful(ty: Ty, j: Json)
    requires Parse(ty, j).Some?
    ensures HasTy(ty, Parse(ty, j).value) && Faithful(ty, Parse(ty, j).value)
    decreases ty, 0
  {
    match ty
    case TVec(t) => ParsedAllAreFaithful(t, j.items);
    case TRec(fields, _) =>
      forall name <- fields
        ensures HasFieldTy(fields[name], ParseField(fields[name], Member(j, name)).value)
        ensures FaithfulField(fields[name], ParseField(fields[name], Member(j, name)).value)
      {
        ParsedFieldIsFaithful(fields[name], Member(j, name));
      }
    case TStr => case TInt => case TFloat => case TBool =>
  }

  lemma {:induction false} ParsedFieldIsFaithful(field: Field, found: Option<Json>)
    requires ParseField(field, found).Some?
    ensures HasFieldTy(field, ParseField(field, found).value) && FaithfulField(field, ParseField(field, found).value)
    decreases field, 0
  {
    DefaultIsFaithful(field.ty);
    if found.Some? && !(field.kind.Optional? && found.value.Null?) { ParsedIsFaithful(field.ty, found.value); }
  }

  lemma {:induction false} ParsedAllAreFaithful(ty: Ty, items: seq<Json>)
    requires ParseAll(ty, items).Some?
    ensures var vs := ParseAll(ty, items).value;
            |vs| == |items| && forall i | 0 <= i < |vs| ::
              Parse(ty, items[i]) == Some(vs[i]) && HasTy(ty, vs[i]) && Faithful(ty, vs[i])
    decreases ty, |items| + 1
  {
    if items != [] {
      ParsedIsFaithful(ty, items[0]);
      ParsedAllAreFaithful(ty, items[1..]);
    }
  }

  // ---- Parsing undoes printing ----

  lemma {:induction false} ParsePrinted(ty: Ty, v: Val)
    requires HasTy(ty, v) && Faithful(ty, v)
    ensures Parse(ty, Print(ty, v)) == Some(v)
    decreases ty, 0
  {
    match ty
    case TVec(t) => ParsePrintedAll(t, v.items, Print(ty, v).items);
    case TRec(fields, _) =>
      var out := Print(ty, v);
      forall name <- fields ensures ParseField(fields[name], Member(out, name)) == Some(v.vals[name]) {
        assert Member(out, name) == Some(PrintField(fields[name], v.vals[name]));
        ParsePrintedField(fields[name], v.vals[name]);
      }
      assert (map name <- fields :: ParseField(fields[name], Member(out, name)).value) == v.vals;
      assert Extra(out, fields.Keys) == v.extra;
    case TStr => case TInt => case TFloat => case TBool =>
  }

  lemma {:induction false} ParsePrintedField(field: Field, held: Option<Val>)
    requires HasFieldTy(field, held) && FaithfulField(field, held)
    ensures ParseField(field, Some(PrintField(field, held))) == Some(held)
    decreases field, 0
  {
    if held.Some? { ParsePrinted(field.ty, held.value); }
  }

  lemma {:induction false} ParsePrintedAll(ty: Ty, vs: seq<Val>, items: seq<Json>)
    requires |items| == |vs|
    requires forall i | 0 <= i < |vs| :: HasTy(ty, vs[i]) && Faithful(ty, vs[i]) && items[i] == Print(ty, vs[i])
    ensures ParseAll(ty, items) == Some(vs)
    decreases ty, |vs| + 1
  {
    if vs != [] {
      ParsePrinted(ty, vs[0]);
      ParsePrintedAll(ty, vs[1..], items[1..]);
      assert vs == [vs[0]] + vs[1..];
    }
  }

  /** A value comes back from its printed form exactly when its floats are finite and none of its collected
      members is called like a field. */
  lemma RoundTrip(ty: Ty, v: Val)
    requires HasTy(ty, v)
    ensures Parse(ty, Print(ty, v)) == Some(v) <==> Faithful(ty, v)
  {
    if Faithful(ty, v) {
      ParsePrinted(ty, v);
    } else if Parse(ty, Print(ty, v)).Some? {
      ParsedIsFaithful(ty, Print(ty, v));
    }
  }

  /** Parsing is stable: what was parsed once comes back from its printed form. */
  lemma ParseIsStable(ty: Ty, j: Json)
    requires Parse(ty, j).Some?
    ensures HasTy(ty, Parse(ty, j).value) && Parse(ty, Print(ty, Parse(ty, j).value)) == Parse(ty, j)
  {
    ParsedIsFaithful(ty, j);
    ParsePrinted(ty, Parse(ty, j).value);
  }

  // ---- What printing makes of the JSON that was parsed ----

  /** `out` is `j` with the missing fields filled in and numbers in float fields written as floats. Members
      without a field are as they were, or gone if the record does not collect them. */
  predicate Completes(ty: Ty, j: Json, out: Json)
    decreases ty
  {
    match ty
    case TFloat => AsF64(j).Some? && out == Float(AsF64(j).value.value)
    case TVec(t) =>
      j.Arr? && out.Arr? && |j.items| == |out.items| && forall i | 0 <= i < |j.items| :: Completes(t, j.items[i], out.items[i])
    case TRec(fields, keepsExtra) =>
      j.Obj? && out.Obj? && fields.Keys <= out.members.Keys &&
      Extra(out, fields.Keys) == (if keepsExtra then Extra(j, fields.Keys) else map[]) &&
      forall name <- fields :: CompletesField(fields[name], Member(j, name), out.members[name])
    case _ => out == j
  }

  /** What is missing is null if it is optional, and else the zero of its type. */
  predicate CompletesField(field: Field, found: Option<Json>, out: Json)
    decreases field
  {
    if field.kind.Optional? && (found.None? || found.value.Null?) then out.Null?
    else if found.None? then field.kind.Defaulted? && IsZero(field.ty, out)
    else Completes(field.ty, found.value, out)
  }

  predicate IsZero(ty: Ty, out: Json)
    decreases ty
  {
    match ty
    case TStr => out == Str("")
    case TInt => out == Int(0)
    case TFloat => out == Float(0.0)
    case TBool => out == Bool(false)
    case TVec(_) => out == Arr([])
    case TRec(fields, _) =>
      out.Obj? && out.members.Keys == fields.Keys &&
      forall name <- fields :: IsZeroField(fields[name], out.members[name])
  }

  predicate IsZeroField(field: Field, out: Json)
    decreases field
  {
    if field.kind.Optional? then out.Null? else IsZero(field.ty, out)
  }

  lemma {:induction false} DefaultPrintsZero(ty: Ty)
    requires HasTy(ty, Default(ty))
    ensures IsZero(ty, Print(ty, Default(ty)))
    decreases ty
  {
    if ty.TRec? {
      var out := Print(ty, Default(ty));
      forall name <- ty.fields
        ensures IsZeroField(ty.fields[name], out.members[name])
      {
        assert out.members[name] == PrintField(ty.fields[name], DefaultField(ty.fields[name]));
        DefaultIsFaithful(ty.fields[name].ty);
        DefaultPrintsZero(ty.fields[name].ty);
      }
    }
  }

  lemma {:induction false} PrintCompletes(ty: Ty, j: Json)
    requires Parse(ty, j).Some?
    ensures HasTy(ty, Parse(ty, j).value) && Completes(ty, j, Print(ty, Parse(ty, j).value))
    decreases ty, 0
  {
    ParsedIsFaithful(ty, j);
    var v := Parse(ty, j).value;
    match ty
    case TVec(t) =>
      ParsedAllAreFaithful(t, j.items);
      forall i | 0 <= i < |j.items| ensures Completes(t, j.items[i], Print(ty, v).items[i]) {
        PrintCompletes(t, j.items[i]);
      }
    case TRec(fields, _) =>
      var out := Print(ty, v);
      forall name <- fields ensures CompletesField(fields[name], Member(j, name), out.members[name]) {
        PrintCompletesField(fields[name], Member(j, name));
      }
      assert Extra(out, fields.Keys) == v.extra;
    case TStr => case TInt => case TFloat => case TBool =>
  }

  lemma {:induction false} PrintCompletesField(field: Field, found: Option<Json>)
    requires ParseField(field, found).Some? && HasFieldTy(field, ParseField(field, found).value)
    ensures CompletesField(field, found, PrintField(field, ParseField(field, found).value))
    decreases field, 0
  {
    if found.None? {
      if field.kind.Defaulted? { DefaultPrintsZero(field.ty); }
    } else if !(field.kind.Optional? && found.value.Null?) {
      PrintCompletes(field.ty, found.value);
    }
  }

  // ---- Which JSON is accepted, and as what ----

  predicate IsNumber(j: Json) { j.Int? || j.Float? }

  /** The JSON that a type accepts: strings, 64-bit integers, numbers of any kind for floats, booleans, lists of
      what conforms; and objects all of whose fields conform, whatever other members they have. */
  predicate Conforms(ty: Ty, j: Json)
    decreases ty
  {
    match ty
    case TStr => j.Str?
    case TInt => j.Int? && IsI64(j.i)
    case TFloat => IsNumber(j)
    case TBool => j.Bool?
    case TVec(t) => j.Arr? && forall i | 0 <= i < |j.items| :: Conforms(t, j.items[i])
    case TRec(fields, _) =>
      j.Obj? && forall name <- fields ::
        if name in j.members then ConformsField(fields[name], j.members[name]) else !fields[name].kind.Needed?
  }

  /** An optional field may be null, too. */
  predicate ConformsField(field: Field, j: Json)
    decreases field
  {
    (field.kind.Optional? && j.Null?) || Conforms(field.ty, j)
  }

  /** `v` holds just what `j` says, with what is missing empty or zero. */
  predicate Reads(ty: Ty, j: Json, v: Val)
    decreases ty
  {
    match ty
    case TStr => v.VStr? && j == Str(v.s)
    case TInt => v.VInt? && j == Int(v.i)
    case TFloat => v.VFloat? && v.f.Finite? && if j.Int? then v.f.value == j.i as real else j == Float(v.f.value)
    case TBool => v.VBool? && j == Bool(v.b)
    case TVec(t) =>
      j.Arr? && v.VVec? && |v.items| == |j.items| && forall i | 0 <= i < |j.items| :: Reads(t, j.items[i], v.items[i])
    case TRec(fields, keepsExtra) =>
      j.Obj? && v.VRec? && v.vals.Keys == fields.Keys &&
      (forall name <- fields :: ReadsField(fields[name], Member(j, name), v.vals[name])) &&
      v.extra.Keys == (if keepsExtra then j.members.Keys - fields.Keys else {}) &&
      (forall key <- v.extra :: v.extra[key] == j.members[key])
  }

  predicate ReadsField(field: Field, found: Option<Json>, held: Option<Val>)
    decreases field
  {
    if held.None? then field.kind.Optional? && (found.None? || found.value.Null?)
    else if found.None? then field.kind.Defaulted? && HasTy(field.ty, held.value) && IsZero(field.ty, Print(field.ty, held.value))
    else Reads(field.ty, found.value, held.value)
  }

  lemma {:induction false} ParseAllReads(ty: Ty, items: seq<Json>)
    ensures ParseAll(ty, items).Some? <==> forall i | 0 <= i < |items| :: Parse(ty, items[i]).Some?
    ensures ParseAll(ty, items).Some? ==>
              |ParseAll(ty, items).value| == |items| &&
              forall i | 0 <= i < |items| :: Parse(ty, items[i]) == Some(ParseAll(ty, items).value[i])
    decreases |items|
  {
    if items != [] {
      ParseAllReads(ty, items[1..]);
      assert forall i | 0 < i < |items| :: items[i] == items[1..][i - 1];
    }
  }

  /** Parsing accepts exactly the JSON that conforms. */
  lemma {:induction false} ParseAccepts(ty: Ty, j: Json)
    ensures Parse(ty, j).Some? <==> Conforms(ty, j)
    decreases ty, 0
  {
    match ty
    case TVec(t) =>
      if j.Arr? {
        ParseAllReads(t, j.items);
        forall i | 0 <= i < |j.items| ensures Parse(t, j.items[i]).Some? <==> Conforms(t, j.items[i]) {
          ParseAccepts(t, j.items[i]);
        }
      }
    case TRec(fields, _) =>
      if j.Obj? {
        forall name <- fields
          ensures ParseField(fields[name], Member(j, name)).Some? <==>
                  if name in j.members then ConformsField(fields[name], j.members[name]) else !fields[name].kind.Needed?
        {
          if name in j.members { ParseAccepts(fields[name].ty, j.members[name]); }
        }
      }
    case TStr => case TInt => case TFloat => case TBool =>
  }

  /** And makes of it the value that reads just like it. */
  lemma {:induction false} ParsedReads(ty: Ty, j: Json)
    requires Parse(ty, j).Some?
    ensures Reads(ty, j, Parse(ty, j).value)
    decreases ty, 0
  {
    var v := Parse(ty, j).value;
    match ty
    case TVec(t) =>
      ParseAllReads(t, j.items);
      forall i | 0 <= i < |j.items| ensures Reads(t, j.items[i], v.items[i]) {
        ParsedReads(t, j.items[i]);
      }
    case TRec(fields, _) =>
      forall name <- fields ensures ReadsField(fields[name], Member(j, name), v.vals[name]) {
        ParsedFieldReads(fields[name], Member(j, name));
      }
    case TStr => case TInt => case TFloat => case TBool =>
  }

  lemma {:induction false} ParsedFieldReads(field: Field, found: Option<Json>)
    requires ParseField(field, found).Some?
    ensures ReadsField(field, found, ParseField(field, found).value)
    decreases field, 0
  {
    if found.None? {
      DefaultIsFaithful(field.ty);
      DefaultPrintsZero(field.ty);
    } else if !(field.kind.Optional? && found.value.Null?) {
      ParsedReads(field.ty, found.value);
    }
  }
}
