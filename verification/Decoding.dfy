/**
  What the CDR reader and the deserializers generated on top of it return for arbitrary bytes.
 */
module Decoding {
  import opened Wrappers
  import opened Bytes
  import opened Scripts
  import opened BulkCopy
  import opened WriterSteps
  import opened WireTypes

  /** A buffer being read; alignment counts from `base`, the end of the encapsulation header. */
  datatype Source = Source(buf: seq<byte>, base: nat, c: Cfg)

  /** A value and the position behind it, or an error. */
  datatype Read<+T> = Bad(error: Error) | Ok(value: T, pos: nat)

  /** A successful read moves forward and stays inside the buffer; a failed one has an error. */
  predicate Within<T>(r: Source, pos: nat, x: Read<T>) {
    if x.Ok? then pos <= x.pos <= |r.buf| else x.error == Underflow || x.error == Overflow
  }

  function ReadScalar(r: Source, pos: nat, w: nat): (x: Read<nat>)
    requires r.base <= pos
    ensures Within(r, pos, x) && (x.Ok? ==> pos + w <= x.pos)
  {
    var p := pos + Pad(r.c, pos - r.base, AlignOf(w));
    if p + w > |r.buf| then Bad(Underflow) else Ok(Get(r.buf[p..p + w], r.c.le), p + w)
  }

  /** read_i8 … read_i64: the same bytes as a two's complement number. */
  function ReadSigned(r: Source, pos: nat, w: nat): (x: Read<int>)
    requires r.base <= pos
    ensures Within(r, pos, x)
  {
    match ReadScalar(r, pos, w)
    case Bad(err) => Bad(err)
    case Ok(n, p) => Ok(ToSigned(n, w), p)
  }

  /** read_bool: any nonzero octet is true. */
  function ReadBool(r: Source, pos: nat): (x: Read<bool>)
    requires r.base <= pos
    ensures Within(r, pos, x)
  {
    match ReadScalar(r, pos, 1)
    case Bad(err) => Bad(err)
    case Ok(n, p) => Ok(n != 0, p)
  }

  function ReadText(r: Source, pos: nat): (x: Read<seq<byte>>)
    requires r.base <= pos
    ensures Within(r, pos, x)
  {
    match ReadScalar(r, pos, 4)
    case Bad(err) => Bad(err)
    case Ok(len, p) =>
      if len == 0 then Ok([], p)
      else if p + len > |r.buf| then Bad(Underflow)
      else Ok(r.buf[p..p + len - 1], p + len)
  }

  /** read_string_copy: a text that does not fit in the destination with its NUL is an overflow. */
  function ReadCopy(r: Source, pos: nat, capacity: nat): (x: Read<seq<byte>>)
    requires r.base <= pos
    ensures Within(r, pos, x)
  {
    match ReadText(r, pos)
    case Bad(err) => Bad(err)
    case Ok(s, p) => if |s| + 1 > capacity then Bad(Overflow) else Ok(s, p)
  }

  /** A string member, read in place or copied to an array of its own. */
  function ReadStr(r: Source, pos: nat, capacity: Option<nat>): (x: Read<seq<byte>>)
    requires r.base <= pos
    ensures Within(r, pos, x)
  {
    if capacity.Some? then ReadCopy(r, pos, capacity.value) else ReadText(r, pos)
  }

  /** read_seq_header: a count larger than the bytes left is rejected. */
  function ReadCount(r: Source, pos: nat): (x: Read<nat>)
    requires r.base <= pos
    ensures Within(r, pos, x)
  {
    match ReadScalar(r, pos, 4)
    case Bad(err) => Bad(err)
    case Ok(n, p) => if n > |r.buf| - p then Bad(Underflow) else Ok(n, p)
  }

  /** read_prim_array */
  function ReadBulk(r: Source, pos: nat, w: nat, n: nat): (x: Read<seq<nat>>)
    requires r.base <= pos <= |r.buf|
    ensures Within(r, pos, x) && (x.Ok? ==> |x.value| == n)
  {
    if n == 0 then Ok([], pos)
    else
      var p := pos + Pad(r.c, pos - r.base, AlignOf(w));
      if p + n * w > |r.buf| then Bad(Underflow)
      else Ok(Values(r.buf[p..p + n * w], n, w, r.c.le), p + n * w)
  }

  /** read_dheader_end: jump to the end the DHEADER announced, whatever was read. */
  function EndFrame<T>(r: Source, value: T, start: nat, size: nat): (x: Read<T>)
    ensures Within(r, start, x)
  {
    if start + size > |r.buf| then Bad(Underflow) else Ok(value, start + size)
  }

  datatype EmInfo = EmInfo(id: nat, len: nat, mu: bool)

  function ReadEmheader(r: Source, pos: nat): (x: Read<EmInfo>)
    requires r.base <= pos
    ensures Within(r, pos, x) && (x.Ok? ==> pos < x.pos)
  {
    match ReadScalar(r, pos, 4)
    case Bad(err) => Bad(err)
    case Ok(h, p) =>
      var id, lc, mu := h % 0x1000_0000, (h / 0x1000_0000) % 8, h / 0x8000_0000 % 2 == 1;
      if lc == 0 then Ok(EmInfo(id, 1, mu), p)
      else if lc == 1 then Ok(EmInfo(id, 2, mu), p)
      else if lc == 2 then Ok(EmInfo(id, 4, mu), p)
      else if lc == 3 then Ok(EmInfo(id, 8, mu), p)
      else if lc == 4 then
        match ReadScalar(r, p, 4)
        case Bad(err) => Bad(err)
        case Ok(len, q) => Ok(EmInfo(id, len, mu), q)
      else if p + 4 > |r.buf| then Bad(Underflow)
      else
        // the next integer is looked at but stays part of the member
        var next := Get(r.buf[p..p + 4], r.c.le);
        var len := if lc == 5 then next else if lc == 6 then (4 + 4 * next) % U32 else (4 + 8 * next) % U32;
        Ok(EmInfo(id, len, mu), p)
  }

  datatype PidInfo = EndOfList | Pid(id: nat, len: nat)

  function ReadPid(r: Source, pos: nat): (x: Read<PidInfo>)
    requires r.base <= pos
    ensures Within(r, pos, x) && (x.Ok? ==> pos < x.pos)
  {
    var p := pos + Pad(r.c, pos - r.base, 4);
    if p + 4 > |r.buf| then Bad(Underflow)
    else
      var raw := Get(r.buf[p..p + 2], r.c.le) % 0x4000;
      var len := Get(r.buf[p + 2..p + 4], r.c.le);
      if raw == PID_SENTINEL then Ok(EndOfList, p + 4)
      else if raw == PID_EXTENDED then
        if p + 12 > |r.buf| then Bad(Underflow)
        else Ok(Pid(Get(r.buf[p + 4..p + 8], r.c.le), Get(r.buf[p + 8..p + 12], r.c.le)), p + 12)
      else Ok(Pid(raw, len), p + 4)
  }

  /** skip_bytes */
  function Skip(r: Source, pos: nat, n: nat): (x: Read<()>)
    ensures Within(r, pos, x)
  {
    if pos + n > |r.buf| then Bad(Underflow) else Ok((), pos + n)
  }

  /** The position of `id` among the tags, or their number. */
  function Index(tags: seq<Tag>, id: nat): (k: nat)
    ensures k <= |tags|
    ensures k < |tags| ==> tags[k].id == id
    ensures forall i :: 0 <= i < k ==> tags[i].id != id
  {
    if tags == [] then 0 else if tags[0].id == id then 0 else 1 + Index(tags[1..], id)
  }

  function Wrap(e: Type, ns: seq<nat>): (vs: seq<Value>)
    ensures |vs| == |ns|
  {
    seq(|ns|, i requires 0 <= i < |ns| => Num(if e.Bool? then (if ns[i] != 0 then 1 else 0) else ns[i]))
  }

  function Blank(n: nat): (vs: seq<Value>)
    ensures |vs| == n
  {
    seq(n, i => Absent)
  }

  /** What a generated deserializer returns for a field. */
  function Decode(r: Source, t: Type, pos: nat): (x: Read<Value>)
    requires IsType(t) && r.base <= pos <= |r.buf|
    ensures Within(r, pos, x)
    decreases t, 3
  {
    if IsFramed(r.c, t) then
      match ReadScalar(r, pos, 4)
      case Bad(err) => Bad(err)
      case Ok(size, start) =>
        (match DecodePlain(r, t, start)
         case Bad(err) => Bad(err)
         case Ok(v, _) => EndFrame(r, v, start, size))
    else DecodePlain(r, t, pos)
  }

  function DecodePlain(r: Source, t: Type, pos: nat): (x: Read<Value>)
    requires IsType(t) && r.base <= pos <= |r.buf|
    ensures Within(r, pos, x)
    decreases t, 2
  {
    match t
    case Str(capacity) =>
      (match ReadStr(r, pos, capacity)
       case Bad(err) => Bad(err)
       case Ok(s, p) => Ok(Txt(s), p))
    case Seq(e) =>
      (match ReadCount(r, pos)
       case Bad(err) => Bad(err)
       case Ok(n, p) => DecodeItems(r, e, n, p))
    case Arr(e, n) => DecodeItems(r, e, n, pos)
    case Struct(ext, tags, types) =>
      if ext.Mutable? then DecodeMutable(r, tags, types, pos)
      else if ext.Appendable? && r.c.xcdr2 then DecodeDelimited(r, types, pos)
      else Listed(DecodeFields(r, types, pos))
    case _ =>
      (match ReadScalar(r, pos, Width(t))
       case Bad(err) => Bad(err)
       case Ok(n, p) => Ok(Num(if t.Bool? then (if n != 0 then 1 else 0) else n), p))
  }

  function Listed(x: Read<seq<Value>>): Read<Value> {
    match x
    case Bad(err) => Bad(err)
    case Ok(vs, p) => Ok(List(vs), p)
  }

  function DecodeItems(r: Source, e: Type, n: nat, pos: nat): (x: Read<Value>)
    requires IsType(e) && r.base <= pos <= |r.buf|
    ensures Within(r, pos, x)
    decreases e, 5
  {
    if IsBulk(e) then
      match ReadBulk(r, pos, Width(e), n)
      case Bad(err) => Bad(err)
      case Ok(ns, p) => Ok(List(Wrap(e, ns)), p)
    else Listed(DecodeElements(r, e, n, pos))
  }

  function DecodeElements(r: Source, e: Type, n: nat, pos: nat): (x: Read<seq<Value>>)
    requires IsType(e) && r.base <= pos <= |r.buf|
    ensures Within(r, pos, x)
    decreases e, 4, n
  {
    if n == 0 then Ok([], pos)
    else
      match Decode(r, e, pos)
      case Bad(err) => Bad(err)
      case Ok(v, p) =>
        match DecodeElements(r, e, n - 1, p)
        case Bad(err) => Bad(err)
        case Ok(vs, q) => Ok([v] + vs, q)
  }

  function DecodeFields(r: Source, types: seq<Type>, pos: nat): (x: Read<seq<Value>>)
    requires AreTypes(types) && r.base <= pos <= |r.buf|
    ensures Within(r, pos, x)
    decreases types, 0
  {
    if types == [] then Ok([], pos)
    else
      match Decode(r, types[0], pos)
      case Bad(err) => Bad(err)
      case Ok(v, p) =>
        match DecodeFields(r, types[1..], p)
        case Bad(err) => Bad(err)
        case Ok(vs, q) => Ok([v] + vs, q)
  }

  function DecodeDelimited(r: Source, types: seq<Type>, pos: nat): (x: Read<Value>)
    requires AreTypes(types) && r.base <= pos <= |r.buf|
    ensures Within(r, pos, x)
    decreases types, 1
  {
    match ReadScalar(r, pos, 4)
    case Bad(err) => Bad(err)
    case Ok(size, start) =>
      match DecodeFields(r, types, start)
      case Bad(err) => Bad(err)
      case Ok(vs, _) => EndFrame(r, List(vs), start, size)
  }

  function DecodeMutable(r: Source, tags: seq<Tag>, types: seq<Type>, pos: nat): (x: Read<Value>)
    requires |tags| == |types| && AreTypes(types) && r.base <= pos <= |r.buf|
    ensures Within(r, pos, x)
    decreases types, 2
  {
    if r.c.xcdr2 then
      match ReadScalar(r, pos, 4)
      case Bad(err) => Bad(err)
      case Ok(size, start) =>
        match DecodeFramed(r, tags, types, start, start + size, Blank(|types|))
        case Bad(err) => Bad(err)
        case Ok(vs, _) => EndFrame(r, List(vs), start, size)
    else Listed(DecodeParams(r, tags, types, pos, Blank(|types|)))
  }

  /** The XCDR2 member loop: known members are read, unknown ones skipped, up to the DHEADER end. */
  function DecodeFramed(r: Source, tags: seq<Tag>, types: seq<Type>, pos: nat, end: nat, acc: seq<Value>): (x: Read<seq<Value>>)
    requires |acc| == |tags| == |types| && AreTypes(types) && r.base <= pos <= |r.buf|
    ensures Within(r, pos, x)
    decreases types, 1, |r.buf| - pos
  {
    if pos >= end then Ok(acc, pos)
    else
      match ReadEmheader(r, pos)
      case Bad(err) => Bad(err)
      case Ok(h, p) =>
        var k := Index(tags, h.id);
        if k < |types| then
          match Decode(r, types[k], p)
          case Bad(err) => Bad(err)
          case Ok(v, q) => DecodeFramed(r, tags, types, q, end, acc[k := v])
        else
          match Skip(r, p, h.len)
          case Bad(err) => Bad(err)
          case Ok(_, q) => DecodeFramed(r, tags, types, q, end, acc)
  }

  /** The XCDR1 parameter loop: up to the sentinel, skipping what a known member left unread. */
  function DecodeParams(r: Source, tags: seq<Tag>, types: seq<Type>, pos: nat, acc: seq<Value>): (x: Read<seq<Value>>)
    requires |acc| == |tags| == |types| && AreTypes(types) && r.base <= pos <= |r.buf|
    ensures Within(r, pos, x)
    decreases types, 1, |r.buf| - pos
  {
    match ReadPid(r, pos)
    case Bad(err) => Bad(err)
    case Ok(EndOfList, p) => Ok(acc, p)
    case Ok(Pid(id, len), p) =>
      var k := Index(tags, id);
      if k < |types| then
        match Decode(r, types[k], p)
        case Bad(err) => Bad(err)
        case Ok(v, q) =>
          if q - p < len then
            match Skip(r, q, len - (q - p))
            case Bad(err) => Bad(err)
            case Ok(_, q') => DecodeParams(r, tags, types, q', acc[k := v])
          else DecodeParams(r, tags, types, q, acc[k := v])
      else
        match Skip(r, p, len)
        case Bad(err) => Bad(err)
        case Ok(_, q) => DecodeParams(r, tags, types, q, acc)
  }
}
