/**
  Extraction of one named field from a serialized flat struct, without decoding the rest of it.
 */
module FieldExtractor {
  import opened Wrappers
  import opened Bytes
  import opened Utf8
  import WriterSteps

  datatype FieldKind = String | Int32 | UInt32 | Int16 | UInt16 | Int64 | UInt64 | Int8 | UInt8 | Bool

  datatype FieldDescriptor = FieldDescriptor(name: string, kind: FieldKind)

  datatype Parameter = TextValue(s: seq<byte>) | IntegerValue(i: int)

  datatype Error = TooShort | CannotParse(field: string) | CannotSkip(field: string) | NotFound(field: string)

  datatype Result<+T> = Ok(value: T) | Err(error: Error)

  function SizeOf(k: FieldKind): nat {
    match k
    case String => 0
    case Int8 => 1 case UInt8 => 1 case Bool => 1
    case Int16 => 2 case UInt16 => 2
    case Int32 => 4 case UInt32 => 4
    case Int64 => 8 case UInt64 => 8
  }

  predicate IsSigned(k: FieldKind) {
    k.Int8? || k.Int16? || k.Int32? || k.Int64?
  }

  function NumberOf(k: FieldKind, n: nat): Parameter {
    IntegerValue(if IsSigned(k) then ToSigned(n, SizeOf(k)) else n)
  }

  /** cdr_align: round up to a multiple of `a` */
  function CdrAlign(pos: nat, a: nat): nat
    requires a > 0
  {
    (pos + a - 1) / a * a
  }

  function AlignBody(pos: nat, base: nat, a: nat): nat
    requires base <= pos && a > 0
  {
    base + CdrAlign(pos - base, a)
  }

  lemma AlignBodyPads(pos: nat, base: nat, a: nat)
    requires base <= pos && (a == 1 || a == 2 || a == 4 || a == 8)
    ensures AlignBody(pos, base, a) == pos + PadTo(pos - base, a)
  {
    if a > 1 {
      RoundUp(pos - base, a);
    }
  }

  function SkipField(data: seq<byte>, pos: nat, base: nat, le: bool, k: FieldKind): Option<nat>
    requires base <= pos
  {
    if k.String? then
      var aligned := AlignBody(pos, base, 4);
      if aligned + 4 > |data| then None
      else
        var end := aligned + 4 + Get(data[aligned..aligned + 4], le);
        if end > |data| then None else Some(end)
    else if SizeOf(k) == 1 then
      if pos >= |data| then None else Some(pos + 1)
    else
      var aligned := AlignBody(pos, base, SizeOf(k));
      if aligned + SizeOf(k) > |data| then None else Some(aligned + SizeOf(k))
  }

  /** The text of a string field: one trailing NUL is dropped. */
  function TextOf(raw: seq<byte>): seq<byte> {
    if raw != [] && raw[|raw| - 1] == 0 then raw[..|raw| - 1] else raw
  }

  function ReadField(data: seq<byte>, pos: nat, base: nat, le: bool, k: FieldKind): Option<(Parameter, nat)>
    requires base <= pos
  {
    if k.String? then
      var aligned := AlignBody(pos, base, 4);
      if aligned + 4 > |data| then None
      else
        var start, len := aligned + 4, Get(data[aligned..aligned + 4], le);
        if start + len > |data| then None
        else
          var text := TextOf(data[start..start + len]);
          if IsUtf8(text) then Some((TextValue(text), start + len)) else None
    else if SizeOf(k) == 1 then
      if pos >= |data| then None else Some((NumberOf(k, data[pos]), pos + 1))
    else
      var w := SizeOf(k);
      var aligned := AlignBody(pos, base, w);
      if aligned + w > |data| then None
      else Some((NumberOf(k, Get(data[aligned..aligned + w], le)), aligned + w))
  }

  /** Does a string field at `pos` hold text?  (Other fields always do.) */
  predicate IsText(data: seq<byte>, pos: nat, base: nat, le: bool, k: FieldKind)
    requires base <= pos
  {
    k.String? ==>
      var aligned := AlignBody(pos, base, 4);
      var len := if aligned + 4 <= |data| then Get(data[aligned..aligned + 4], le) else 0;
      aligned + 4 + len <= |data| ==> IsUtf8(TextOf(data[aligned + 4..aligned + 4 + len]))
  }

  /** Skipping and reading agree: on where the next field starts, and on failing, except for malformed text. */
  lemma SkipAgreesWithRead(data: seq<byte>, pos: nat, base: nat, le: bool, k: FieldKind)
    requires base <= pos
    ensures var s, r := SkipField(data, pos, base, le, k), ReadField(data, pos, base, le, k);
            && (r.Some? ==> s == Some(r.value.1))
            && (r.Some? <==> s.Some? && IsText(data, pos, base, le, k))
            && (s.Some? ==> pos < s.value <= |data|)
  {
    hide Get, IsUtf8, AlignBody, PadTo, NumberOf;
    var a := if k.String? then 4 else SizeOf(k);
    AlignBodyPads(pos, base, a);
  }

  /** The first field with the given name, found by skipping the ones before it. */
  function Extract(data: seq<byte>, fields: seq<FieldDescriptor>, pos: nat, base: nat, le: bool, name: string): Result<Parameter>
    requires base <= pos
  {
    if fields == [] then Err(NotFound(name))
    else if fields[0].name == name then
      match ReadField(data, pos, base, le, fields[0].kind)
      case None => Err(CannotParse(name))
      case Some((p, _)) => Ok(p)
    else
      match SkipField(data, pos, base, le, fields[0].kind)
      case None => Err(CannotSkip(fields[0].name))
      case Some(next) => SkipAgreesWithRead(data, pos, base, le, fields[0].kind); Extract(data, fields[1..], next, base, le, name)
  }

  /** Where the fields of a sample start. */
  function StartOf(data: seq<byte>, ext: WriterSteps.Ext): nat
    requires |data| >= 4
  {
    var id := Get(data[..2], false);
    if 0x0006 <= id <= 0x000B && !ext.Final? && 8 <= |data| then 8 else 4
  }

  method ParseFieldValue(data: seq<byte>, fields: seq<FieldDescriptor>, ext: WriterSteps.Ext, name: string)
    returns (r: Result<Parameter>)
    ensures r == if |data| < 4 then Err(TooShort)
                 else Extract(data, fields, StartOf(data, ext), 4, Get(data[..2], false) % 2 == 1, name)
  {
    hide Get, SkipField, ReadField, Extract;
    if |data| < 4 { return Err(TooShort); }
    var id := Get(data[..2], false);
    var isXcdr2 := 0x0006 <= id <= 0x000B;
    var le := id % 2 == 1;
    var base := 4;
    var pos := base;
    if isXcdr2 && (ext.Appendable? || ext.Mutable?) && pos + 4 <= |data| {
      pos := pos + 4;
    }
    ghost var whole := Extract(data, fields, pos, base, le, name);
    assert fields[0..] == fields;
    var i := 0;
    while i < |fields|
      invariant i <= |fields| && base <= pos
      invariant whole == Extract(data, fields[i..], pos, base, le, name)
    {
      var field := fields[i];
      ExtractNext(data, fields, i, pos, base, le, name);
      if field.name == name {
        match ReadField(data, pos, base, le, field.kind) {
          case None => return Err(CannotParse(name));
          case Some((p, _)) => return Ok(p);
        }
      }
      match SkipField(data, pos, base, le, field.kind) {
        case None => return Err(CannotSkip(field.name));
        case Some(next) => pos := next;
      }
      i := i + 1;
    }
    assert fields[i..] == [];
    NothingLeft(data, pos, base, le, name);
    r := Err(NotFound(name));
  }

  lemma NothingLeft(data: seq<byte>, pos: nat, base: nat, le: bool, name: string)
    requires base <= pos
    ensures Extract(data, [], pos, base, le, name) == Err(NotFound(name))
  {
  }

  /** Extraction from the `i`-th field on. */
  lemma ExtractNext(data: seq<byte>, fields: seq<FieldDescriptor>, i: nat, pos: nat, base: nat, le: bool, name: string)
    requires i < |fields| && base <= pos
    ensures fields[i].name == name ==>
              Extract(data, fields[i..], pos, base, le, name) ==
              match ReadField(data, pos, base, le, fields[i].kind)
              case None => Err(CannotParse(name))
              case Some((p, _)) => Ok(p)
    ensures fields[i].name != name ==>
              var s := SkipField(data, pos, base, le, fields[i].kind);
              && (s.None? ==> Extract(data, fields[i..], pos, base, le, name) == Err(CannotSkip(fields[i].name)))
              && (s.Some? ==>
                    && base <= s.value
                    && Extract(data, fields[i..], pos, base, le, name) == Extract(data, fields[i + 1..], s.value, base, le, name))
  {
    hide SkipField, ReadField;
    assert fields[i..][0] == fields[i] && fields[i..][1..] == fields[i + 1..];
    SkipAgreesWithRead(data, pos, base, le, fields[i].kind);
  }

  /** A full left-to-right decode. */
  function DecodeAll(data: seq<byte>, fields: seq<FieldDescriptor>, pos: nat, base: nat, le: bool): Option<seq<Parameter>>
    requires base <= pos
  {
    if fields == [] then Some([])
    else
      match ReadField(data, pos, base, le, fields[0].kind)
      case None => None
      case Some((p, next)) =>
        SkipAgreesWithRead(data, pos, base, le, fields[0].kind);
        match DecodeAll(data, fields[1..], next, base, le)
        case None => None
        case Some(ps) => Some([p] + ps)
  }

  /** The index of the first field with a name, or the number of fields. */
  function FirstNamed(fields: seq<FieldDescriptor>, name: string): (i: nat)
    ensures i <= |fields|
    ensures i < |fields| ==> fields[i].name == name
    ensures forall j :: 0 <= j < i ==> fields[j].name != name
  {
    if fields == [] || fields[0].name == name then 0 else 1 + FirstNamed(fields[1..], name)
  }

  /** On arbitrary bytes: whenever the full decode succeeds, extraction returns its value for the first field of that name. */
  lemma {:induction false} LazyEqualsEager(data: seq<byte>, fields: seq<FieldDescriptor>, pos: nat, base: nat, le: bool, name: string)
    requires base <= pos && DecodeAll(data, fields, pos, base, le).Some?
    ensures |DecodeAll(data, fields, pos, base, le).value| == |fields|
    ensures var i := FirstNamed(fields, name);
            Extract(data, fields, pos, base, le, name) ==
            if i < |fields| then Ok(DecodeAll(data, fields, pos, base, le).value[i]) else Err(NotFound(name))
    decreases |fields|
  {
    hide ReadField, SkipField;
    if fields != [] {
      var k := fields[0].kind;
      var (p, next) := ReadField(data, pos, base, le, k).value;
      SkipAgreesWithRead(data, pos, base, le, k);
      LazyEqualsEager(data, fields[1..], next, base, le, name);
    }
  }
}
