/**
  Dynamic values and the path language that addresses parts of them, such as `items[2].name`.
 */
module Paths {

  import opened Wrappers

  type Fields = map<string, DynamicValue>

  datatype DynamicValue =
    | Struct(fields: Fields)
    | Sequence(items: seq<DynamicValue>)
    | Array(items: seq<DynamicValue>)
    | Other(kind: nat, bits: int)

  const USIZE_MAX: nat := 0xFFFF_FFFF_FFFF_FFFF

  /** The first position of `c`, or the length of `s`. */
  function Find(s: string, c: char): (k: nat)
    ensures k <= |s|
    ensures k < |s| ==> s[k] == c
    ensures forall i :: 0 <= i < k ==> s[i] != c
  {
    if s == [] || s[0] == c then 0 else 1 + Find(s[1..], c)
  }

  /** `str::split`: never empty */
  function Split(s: string): (segs: seq<string>)
    ensures |segs| > 0
    decreases |s|
  {
    var k := Find(s, '.');
    if k == |s| then [s] else [s[..k]] + Split(s[k + 1..])
  }

  predicate IsDigit(c: char) {
    '0' <= c <= '9'
  }

  function DigitsValue(s: string): Option<nat> {
    if s == [] then Some(0)
    else if !IsDigit(s[|s| - 1]) then None
    else
      match DigitsValue(s[..|s| - 1])
      case None => None
      case Some(n) => Some(10 * n + (s[|s| - 1] as int - '0' as int))
  }

  /** `str::parse::<usize>`: decimal digits, at least one, after an optional plus sign */
  function ParseUsize(s: string): Option<nat> {
    var digits := if |s| > 1 && s[0] == '+' then s[1..] else s;
    if digits == [] then None
    else
      match DigitsValue(digits)
      case None => None
      case Some(n) => if n <= USIZE_MAX then Some(n) else None
  }

  /** What stands behind the first `[`: an index only if it ends in `]` and parses. */
  function ParseIndex(rest: string): Option<nat> {
    if rest != [] && rest[|rest| - 1] == ']' then ParseUsize(rest[..|rest| - 1]) else None
  }

  function SplitIndex(seg: string): (string, Option<nat>) {
    var k := Find(seg, '[');
    if k == |seg| then (seg, None) else (seg[..k], ParseIndex(seg[k + 1..]))
  }

  function ItemOf(v: DynamicValue, index: Option<nat>): Option<DynamicValue> {
    match index
    case None => Some(v)
    case Some(i) => if (v.Sequence? || v.Array?) && i < |v.items| then Some(v.items[i]) else None
  }

  /** One segment of a path. */
  function Lookup(fields: Fields, seg: string): Option<DynamicValue> {
    var (name, index) := SplitIndex(seg);
    if name in fields then ItemOf(fields[name], index) else None
  }

  function Walk(fields: Fields, segs: seq<string>): Option<DynamicValue>
    requires |segs| > 0
    decreases |segs|
  {
    match Lookup(fields, segs[0])
    case None => None
    case Some(v) =>
      if |segs| == 1 then Some(v)
      else if v.Struct? then Walk(v.fields, segs[1..])
      else None
  }

  function Resolve(data: Fields, path: string): Option<DynamicValue> {
    Walk(data, Split(path))
  }

  /** resolve_path, one segment after the other */
  method ResolvePath(data: Fields, path: string) returns (r: Option<DynamicValue>)
    ensures r == Resolve(data, path)
  {
    var segs := Split(path);
    var current: Option<DynamicValue> := None;
    var i := 0;
    assert segs[0..] == segs;
    while i < |segs|
      invariant i <= |segs|
      invariant i == 0 ==> current.None? && Resolve(data, path) == Walk(data, segs[i..])
      invariant i > 0 ==> current.Some?
      invariant 0 < i < |segs| ==>
                  Resolve(data, path) == if current.value.Struct? then Walk(current.value.fields, segs[i..]) else None
      invariant i == |segs| ==> Resolve(data, path) == current
    {
      assert segs[i..][0] == segs[i] && segs[i..][1..] == segs[i + 1..];
      var (name, index) := SplitIndex(segs[i]);
      var value;
      if current.None? {
        if name !in data { return None; }
        value := data[name];
      } else if current.value.Struct? {
        if name !in current.value.fields { return None; }
        value := current.value.fields[name];
      } else {
        return None;
      }
      if index.Some? {
        if !(value.Sequence? || value.Array?) || index.value >= |value.items| { return None; }
        value := value.items[index.value];
      }
      current := Some(value);
      i := i + 1;
    }
    r := current;
  }

  lemma FindPrefix(p: string, c: char, rest: string)
    ensures Find(p + [c] + rest, c) == Find(p, c)
  {
    hide Find;
    var s := p + [c] + rest;
    var a, b := Find(p, c), Find(s, c);
    if a < |p| { assert s[a] == c; } else { assert s[|p|] == c; }
    if b < |p| { assert p[b] == c; }
  }

  /** A dot splits between what is split before it and after it. */
  lemma {:induction false} SplitJoin(p: string, q: string)
    ensures Split(p + "." + q) == Split(p) + Split(q)
    decreases |p|
  {
    hide *;
    var s := p + "." + q;
    var k := Find(p, '.');
    FindPrefix(p, '.', q);
    SplitAt(p);
    SplitAt(s);
    AroundDot(p, q, k);
    if k < |p| {
      SplitJoin(p[k + 1..], q);
      Assoc([p[..k]], Split(p[k + 1..]), Split(q));
    }
  }

  lemma AroundDot(p: string, q: string, k: nat)
    requires k <= |p|
    ensures var s := p + "." + q;
            && s == p + ['.'] + q && |s| == |p| + 1 + |q|
            && (k == |p| ==> s[..k] == p && s[k + 1..] == q)
            && (k < |p| ==> s[..k] == p[..k] && s[k + 1..] == p[k + 1..] + "." + q)
  {
  }

  lemma Assoc<T>(a: seq<T>, b: seq<T>, c: seq<T>)
    ensures a + (b + c) == a + b + c
  {
  }

  lemma SplitAt(s: string)
    ensures var k := Find(s, '.'); Split(s) == if k == |s| then [s] else [s[..k]] + Split(s[k + 1..])
  {
    hide Find;
  }

  lemma {:induction false} WalkAppend(fields: Fields, a: seq<string>, b: seq<string>)
    requires |a| > 0 && |b| > 0
    ensures Walk(fields, a + b) ==
            match Walk(fields, a)
            case None => None
            case Some(v) => if v.Struct? then Walk(v.fields, b) else None
    decreases |a|
  {
    hide Lookup;
    assert (a + b)[0] == a[0] && (a + b)[1..] == a[1..] + b;
    match Lookup(fields, a[0])
    case None =>
    case Some(v) =>
      if |a| == 1 {
        assert a[1..] + b == b;
      } else if v.Struct? {
        WalkAppend(v.fields, a[1..], b);
      }
  }

  /** For all strings: resolving `p.q` is resolving `q` inside the struct that `p` resolves to. */
  lemma ResolveCompose(data: Fields, p: string, q: string)
    ensures Resolve(data, p + "." + q) ==
            match Resolve(data, p)
            case None => None
            case Some(v) => if v.Struct? then Resolve(v.fields, q) else None
  {
    SplitJoin(p, q);
    WalkAppend(data, Split(p), Split(q));
  }

  datatype Code = FieldNotFound | TypeMismatch

  datatype Result<+T> = Ok(value: T) | Err(code: Code)

  /** A typed getter; `from` is the conversion of a value to the requested type. */
  function GetAs<T>(data: Fields, path: string, from: DynamicValue -> Option<T>): Result<T> {
    match Resolve(data, path)
    case None => Err(FieldNotFound)
    case Some(v) => match from(v) case None => Err(TypeMismatch) case Some(x) => Ok(x)
  }

  function GetMember(data: Fields, path: string): Result<Fields> {
    match Resolve(data, path)
    case None => Err(FieldNotFound)
    case Some(v) => if v.Struct? then Ok(v.fields) else Err(TypeMismatch)
  }

  function GetLen(data: Fields, path: string): Result<nat> {
    match Resolve(data, path)
    case None => Err(FieldNotFound)
    case Some(v) => if v.Sequence? || v.Array? then Ok(|v.items|) else Err(TypeMismatch)
  }

  /** Taking the member at `p` and asking it for `q` is asking for `p.q`; only the code of a failure at `p` may differ. */
  lemma GetThroughMember<T>(data: Fields, p: string, q: string, from: DynamicValue -> Option<T>)
    ensures GetMember(data, p).Ok? ==> GetAs(GetMember(data, p).value, q, from) == GetAs(data, p + "." + q, from)
    ensures GetMember(data, p).Ok? ==> GetLen(GetMember(data, p).value, q) == GetLen(data, p + "." + q)
    ensures GetMember(data, p).Ok? ==> GetMember(GetMember(data, p).value, q) == GetMember(data, p + "." + q)
    ensures GetMember(data, p).Err? ==> GetAs(data, p + "." + q, from) == Err(FieldNotFound)
    ensures GetMember(data, p).Err? ==> GetLen(data, p + "." + q) == Err(FieldNotFound)
    ensures GetMember(data, p).Err? ==> GetMember(data, p + "." + q) == Err(FieldNotFound)
  {
    ResolveCompose(data, p, q);
    hide Resolve;
  }

  // Printing paths.

  datatype Step = Step(name: string, index: Option<nat>)

  function DigitChar(d: nat): char
    requires d < 10
  {
    ('0' as int + d) as char
  }

  function Decimal(n: nat): (s: string)
    ensures s != []
  {
    if n < 10 then [DigitChar(n)] else Decimal(n / 10) + [DigitChar(n % 10)]
  }

  function RenderStep(s: Step): string {
    match s.index
    case None => s.name
    case Some(i) => s.name + "[" + Decimal(i) + "]"
  }

  function Render(steps: seq<Step>): string
    requires |steps| > 0
  {
    if |steps| == 1 then RenderStep(steps[0]) else RenderStep(steps[0]) + "." + Render(steps[1..])
  }

  predicate IsPlainName(s: string) {
    '.' !in s && '[' !in s
  }

  predicate IsStep(s: Step) {
    IsPlainName(s.name) && (s.index.Some? ==> s.index.value <= USIZE_MAX)
  }

  /** The walk a list of steps describes. */
  function WalkSteps(fields: Fields, steps: seq<Step>): Option<DynamicValue>
    requires |steps| > 0
    decreases |steps|, 1
  {
    if steps[0].name !in fields then None
    else
      var v := fields[steps[0].name];
      match steps[0].index
      case None => WalkOn(v, steps[1..])
      case Some(i) =>
        match v
        case Sequence(items) => if i < |items| then WalkOn(items[i], steps[1..]) else None
        case Array(items) => if i < |items| then WalkOn(items[i], steps[1..]) else None
        case _ => None
  }

  function WalkOn(v: DynamicValue, steps: seq<Step>): Option<DynamicValue>
    decreases |steps|, 2
  {
    if steps == [] then Some(v) else if v.Struct? then WalkSteps(v.fields, steps) else None
  }

  lemma {:induction false} DecimalParses(n: nat)
    ensures DigitsValue(Decimal(n)) == Some(n)
    ensures forall i :: 0 <= i < |Decimal(n)| ==> IsDigit(Decimal(n)[i])
  {
    var s := Decimal(n);
    if n < 10 {
      assert s[..|s| - 1] == [];
    } else {
      DecimalParses(n / 10);
      assert s[..|s| - 1] == Decimal(n / 10);
    }
  }

  /** Printing and parsing an index are inverse. */
  lemma IndexRoundTrip(n: nat)
    requires n <= USIZE_MAX
    ensures ParseIndex(Decimal(n) + "]") == Some(n)
  {
    DecimalParses(n);
    var d := Decimal(n);
    assert (d + "]")[..|d|] == d;
    assert IsDigit(d[0]);
  }

  lemma PlainFind(s: string, c: char)
    requires c !in s
    ensures Find(s, c) == |s|
  {
    hide Find;
  }

  lemma SplitIndexRendered(s: Step)
    requires IsStep(s)
    ensures SplitIndex(RenderStep(s)) == (s.name, s.index)
  {
    PlainFind(s.name, '[');
    match s.index
    case None =>
    case Some(i) =>
      var rest := Decimal(i) + "]";
      assert RenderStep(s) == s.name + ['['] + rest;
      FindPrefix(s.name, '[', rest);
      IndexRoundTrip(i);
      hide Find, Decimal, ParseIndex;
      var seg := s.name + ['['] + rest;
      assert seg[..|s.name|] == s.name && seg[|s.name| + 1..] == rest;
  }

  lemma RenderedStepHasNoDot(s: Step)
    requires IsStep(s)
    ensures '.' !in RenderStep(s)
  {
    match s.index
    case None =>
    case Some(i) =>
      DecimalParses(i);
      hide Decimal;
      forall k | 0 <= k < |RenderStep(s)| ensures RenderStep(s)[k] != '.' {
      }
  }

  lemma SplitPlain(s: string)
    requires '.' !in s
    ensures Split(s) == [s]
  {
    PlainFind(s, '.');
  }

  /** Resolving a printed path is the walk it describes. */
  lemma {:induction false} RenderResolves(fields: Fields, steps: seq<Step>)
    requires |steps| > 0 && forall i :: 0 <= i < |steps| ==> IsStep(steps[i])
    ensures Resolve(fields, Render(steps)) == WalkSteps(fields, steps)
    decreases |steps|
  {
    var s := RenderStep(steps[0]);
    SplitIndexRendered(steps[0]);
    RenderedStepHasNoDot(steps[0]);
    SplitPlain(s);
    hide RenderStep, SplitIndex, Split, IsStep;
    if |steps| > 1 {
      ResolveCompose(fields, s, Render(steps[1..]));
      match Resolve(fields, s)
      case None =>
      case Some(v) =>
        if v.Struct? {
          RenderResolves(v.fields, steps[1..]);
        }
    }
  }

  function Repeat(ch: char, k: nat): (s: string)
    ensures |s| == k && forall i :: 0 <= i < k ==> s[i] == ch
  {
    seq(k, i => ch)
  }

  /** How an index may be spelled: an optional plus sign, leading zeros, the number, and the closing bracket. */
  function Spelling(plus: bool, zeros: nat, n: nat): string {
    (if plus then "+" else "") + (Repeat('0', zeros) + Decimal(n)) + "]"
  }

  lemma {:induction false} LeadingZeros(zeros: nat, n: nat)
    ensures DigitsValue(Repeat('0', zeros) + Decimal(n)) == Some(n)
    decreases n, zeros
  {
    var s := Repeat('0', zeros) + Decimal(n);
    if n >= 10 {
      LeadingZeros(zeros, n / 10);
      assert s[..|s| - 1] == Repeat('0', zeros) + Decimal(n / 10);
    } else {
      assert s[..|s| - 1] == Repeat('0', zeros);
      ZerosValue(zeros);
    }
  }

  lemma {:induction false} ZerosValue(zeros: nat)
    ensures DigitsValue(Repeat('0', zeros)) == Some(0)
  {
    if zeros > 0 {
      assert Repeat('0', zeros)[..zeros - 1] == Repeat('0', zeros - 1);
      ZerosValue(zeros - 1);
    }
  }

  /** Every string of digits is some leading zeros and the printed form of its value. */
  lemma {:induction false} DigitsSpelled(s: string) returns (zeros: nat)
    requires s != [] && DigitsValue(s).Some?
    ensures s == Repeat('0', zeros) + Decimal(DigitsValue(s).value)
  {
    var init, d := s[..|s| - 1], s[|s| - 1];
    if init == [] {
      zeros := 0;
      assert s == [d];
    } else {
      zeros := DigitsSpelled(init);
      var m := DigitsValue(init).value;
      assert s == init + [d];
      if m == 0 {
        zeros := zeros + 1;
        assert init == Repeat('0', zeros);
      }
    }
  }

  lemma SpellingParses(plus: bool, zeros: nat, n: nat)
    requires n <= USIZE_MAX
    ensures ParseIndex(Spelling(plus, zeros, n)) == Some(n)
  {
    var digits := Repeat('0', zeros) + Decimal(n);
    LeadingZeros(zeros, n);
    DecimalParses(n);
    assert IsDigit(digits[0]);
    hide Decimal, DigitsValue;
    var text := (if plus then "+" else "") + digits;
    assert Spelling(plus, zeros, n)[..|text|] == text;
    if plus {
      assert text[1..] == digits;
    } else {
      assert text == digits && digits[0] != '+';
    }
  }

  /** Exactly what parses as an index, and as which one. */
  lemma ParsesIff(rest: string, n: nat)
    ensures ParseIndex(rest) == Some(n) <==> n <= USIZE_MAX && exists plus, zeros :: rest == Spelling(plus, zeros, n)
  {
    hide Spelling, ParseIndex;
    if ParseIndex(rest) == Some(n) {
      var plus, zeros := Spelled(rest, n);
      assert rest == Spelling(plus, zeros, n);
    }
    if n <= USIZE_MAX && exists plus, zeros :: rest == Spelling(plus, zeros, n) {
      var plus, zeros :| rest == Spelling(plus, zeros, n);
      SpellingParses(plus, zeros, n);
    }
  }

  lemma Spelled(rest: string, n: nat) returns (plus: bool, zeros: nat)
    requires ParseIndex(rest) == Some(n)
    ensures n <= USIZE_MAX && rest == Spelling(plus, zeros, n)
  {
    hide Decimal, DigitsValue, Repeat;
    var text := rest[..|rest| - 1];
    plus := |text| > 1 && text[0] == '+';
    var digits := if plus then text[1..] else text;
    zeros := DigitsSpelled(digits);
    assert rest == text + "]" && text == (if plus then "+" else "") + digits;
  }

  /** A field, or one of its items. */
  function Meaning(fields: Fields, name: string, index: Option<nat>): Option<DynamicValue> {
    if name !in fields then None
    else if index.None? then Some(fields[name])
    else
      match fields[name]
      case Sequence(items) => if index.value < |items| then Some(items[index.value]) else None
      case Array(items) => if index.value < |items| then Some(items[index.value]) else None
      case _ => None
  }

  lemma SegmentMeans(fields: Fields, name: string, rest: string)
    requires '[' !in name
    ensures Lookup(fields, name + "[" + rest) == Meaning(fields, name, ParseIndex(rest))
    ensures Lookup(fields, name) == Meaning(fields, name, None)
  {
    PlainFind(name, '[');
    var seg := name + ['['] + rest;
    FindPrefix(name, '[', rest);
    hide Find, ParseIndex;
    assert seg == name + "[" + rest && seg[..|name|] == name && seg[|name| + 1..] == rest;
  }

  /**
    A bracketed segment, alone or at the end of any path: an index is honoured if and only if it parses; one
    that does not is dropped without an error, and the segment means the whole field.
   */
  lemma IndexMeans(data: Fields, p: string, name: string, rest: string)
    requires IsPlainName(name) && '.' !in rest
    ensures Resolve(data, name + "[" + rest) == Meaning(data, name, ParseIndex(rest))
    ensures Resolve(data, name) == Meaning(data, name, None)
    ensures Resolve(data, p + "." + (name + "[" + rest)) ==
            match Resolve(data, p)
            case Some(Struct(fields)) => Meaning(fields, name, ParseIndex(rest))
            case _ => None
  {
    var seg := name + "[" + rest;
    SplitPlain(seg);
    SplitPlain(name);
    SegmentMeans(data, name, rest);
    ResolveCompose(data, p, seg);
    hide Split, Lookup, Meaning, ParseIndex;
    match Resolve(data, p)
    case Some(Struct(fields)) => SegmentMeans(fields, name, rest);
    case _ =>
  }

  lemma {:induction false} NotAllDigits(s: string, k: nat)
    requires k < |s| && !IsDigit(s[k])
    ensures DigitsValue(s).None?
    decreases |s|
  {
    if k < |s| - 1 {
      NotAllDigits(s[..|s| - 1], k);
    }
  }

  lemma TwoIndices(i: nat, j: nat)
    ensures var rest := Decimal(i) + "][" + Decimal(j) + "]"; ParseIndex(rest) == None && '.' !in rest
  {
    var d, e := Decimal(i), Decimal(j);
    var rest := d + "][" + e + "]";
    var inner := d + "][" + e;
    DecimalParses(i);
    DecimalParses(j);
    assert IsDigit(d[0]);
    hide Decimal, DigitsValue;
    assert rest[|rest| - 1] == ']' && rest[..|rest| - 1] == inner;
    assert inner[|d|] == ']' && inner[0] == d[0];
    NotAllDigits(inner, |d|);
  }

  /** In particular a second index: `a[i][j]` resolves to all of `a`. */
  lemma SecondIndexIgnored(data: Fields, name: string, i: nat, j: nat)
    requires IsPlainName(name)
    ensures Resolve(data, name + "[" + (Decimal(i) + "][" + Decimal(j) + "]")) == Resolve(data, name)
  {
    hide *;
    TwoIndices(i, j);
    IndexMeans(data, "", name, Decimal(i) + "][" + Decimal(j) + "]");
  }

  /**
    What a path means, alone and behind any other path: the field of that name, or the item of that number when the
    field is a sequence or an array that has one.  A number above the largest `usize` is no index.
   */
  lemma ItemAtPath(data: Fields, p: string, name: string, i: nat)
    requires IsPlainName(name)
    ensures Resolve(data, name) == Meaning(data, name, None)
    ensures Resolve(data, p + "." + name) ==
            var s := Resolve(data, p);
            if s.Some? && s.value.Struct? then Meaning(s.value.fields, name, None) else None
    ensures Resolve(data, Indexed(name, i)) == Item(data, name, i)
    ensures Resolve(data, p + "." + Indexed(name, i)) ==
            var s := Resolve(data, p);
            if s.Some? && s.value.Struct? then Item(s.value.fields, name, i) else None
  {
    var rest := Decimal(i) + "]";
    IndexPrinted(i);
    assert Indexed(name, i) == name + "[" + rest;
    IndexMeans(data, p, name, rest);
    ResolveCompose(data, p, name);
    hide Resolve, Decimal, ParseIndex, Indexed;
    if Resolve(data, p).Some? && Resolve(data, p).value.Struct? {
      IndexMeans(Resolve(data, p).value.fields, "", name, rest);
    }
  }

  function Indexed(name: string, i: nat): string {
    name + "[" + Decimal(i) + "]"
  }

  /** Item `i` of a field; above the largest `usize` there is no index. */
  function Item(fields: Fields, name: string, i: nat): Option<DynamicValue> {
    Meaning(fields, name, if i <= 0xFFFF_FFFF_FFFF_FFFF then Some(i) else None)
  }

  lemma IndexPrinted(i: nat)
    ensures ParseIndex(Decimal(i) + "]") == if i <= 0xFFFF_FFFF_FFFF_FFFF then Some(i) else None
    ensures '.' !in Decimal(i) + "]"
  {
    DecimalParses(i);
    var d := Decimal(i);
    assert (d + "]")[..|d|] == d;
    assert IsDigit(d[0]);
    hide Decimal, DigitsValue;
  }

  /** The length at a path, alone and behind any other path: how many items of the field there are to ask for. */
  lemma LengthAtPath(data: Fields, p: string, name: string, i: nat)
    requires IsPlainName(name) && i <= 0xFFFF_FFFF_FFFF_FFFF
    ensures GetLen(data, name) ==
            if name !in data then Err(FieldNotFound)
            else
              match data[name]
              case Sequence(items) => Ok(|items|)
              case Array(items) => Ok(|items|)
              case _ => Err(TypeMismatch)
    ensures GetLen(data, name).Ok? ==>
              (Resolve(data, Indexed(name, i)).Some? <==> i < GetLen(data, name).value)
    ensures GetLen(data, p + "." + name).Ok? ==>
              (Resolve(data, p + "." + Indexed(name, i)).Some? <==> i < GetLen(data, p + "." + name).value)
  {
    ItemAtPath(data, p, name, i);
    hide Resolve, Decimal, Indexed;
  }

  /** Members and typed values at a path, with the code of each failure. */
  lemma ValueAtPath<T>(data: Fields, name: string, from: DynamicValue -> Option<T>)
    requires IsPlainName(name)
    ensures GetMember(data, name) ==
            if name !in data then Err(FieldNotFound) else if data[name].Struct? then Ok(data[name].fields) else Err(TypeMismatch)
    ensures GetAs(data, name, from) ==
            if name !in data then Err(FieldNotFound) else if from(data[name]).Some? then Ok(from(data[name]).value) else Err(TypeMismatch)
  {
    ItemAtPath(data, "", name, 0);
    hide Resolve, Decimal;
  }
}
