/**
  What the writer's steps amount to: a script either fails or appends exactly its layout.
 */
module WriterProof {
  import opened Bytes
  import opened Scripts
  import opened WriterSteps

  /** From a good state `s`, the step to `r` succeeds iff `ok` and `b` fits, and then it appends `b`. */
  predicate Writes(s: WState, r: WState, b: seq<byte>, ok: bool) {
    && (r.error == OK <==> ok && |s.out| + |b| <= s.cap)
    && (r.error == OK ==> r == s.(out := s.out + b))
  }

  lemma WritesThen(s: WState, m: WState, r: WState, b1: seq<byte>, b2: seq<byte>, ok1: bool, ok2: bool)
    requires Inv(s) && Writes(s, m, b1, ok1)
    requires m.error == OK ==> Writes(m, r, b2, ok2)
    requires m.error != OK ==> r == m
    ensures Writes(s, r, b1 + b2, ok1 && ok2)
  {
    Assoc(s.out, b1, b2);
  }

  lemma AlignWrites(s: WState, a: nat)
    requires Inv(s) && s.error == OK
    ensures Writes(s, AlignTo(s, a), Zeros(Pad(s.c, StreamPos(s), a)), true)
  {
  }

  lemma ScalarWrites(s: WState, w: nat, v: nat)
    requires Inv(s) && s.error == OK
    ensures Writes(s, PutScalar(s, w, v), ScalarBytes(s.c, StreamPos(s), w, v), true)
  {
    hide Writes, AlignTo, Emit;
    var m := AlignTo(s, AlignOf(w));
    AlignWrites(s, AlignOf(w));
    EmitOrStuck(m, Put(v, w, s.c.le));
    WritesThen(s, m, PutScalar(s, w, v), Zeros(Pad(s.c, StreamPos(s), AlignOf(w))), Put(v, w, s.c.le), true, true);
  }

  /** `Emit` as the second half of a sequence of steps. */
  lemma EmitOrStuck(m: WState, b: seq<byte>)
    requires Inv(m)
    ensures m.error == OK ==> Writes(m, Emit(m, b), b, true)
    ensures m.error != OK ==> Emit(m, b) == m
  {
  }

  lemma TextWrites(s: WState, t: seq<byte>)
    requires Inv(s) && s.error == OK
    ensures Writes(s, PutText(s, t), TextBytes(s.c, Pad(s.c, StreamPos(s), 4), t), true)
  {
    hide Writes, PutScalar, Emit;
    var m := PutScalar(s, 4, |t| + 1);
    ScalarWrites(s, 4, |t| + 1);
    EmitOrStuck(m, t + [0]);
    WritesThen(s, m, PutText(s, t), ScalarBytes(s.c, StreamPos(s), 4, |t| + 1), t + [0], true, true);
    Assoc(ScalarBytes(s.c, StreamPos(s), 4, |t| + 1), t, [0]);
  }

  lemma BulkWrites(s: WState, w: nat, values: seq<nat>)
    requires Inv(s) && s.error == OK
    ensures Writes(s, PutBulk(s, w, values), BulkBytes(s.c, Pad(s.c, StreamPos(s), AlignOf(w)), w, values), true)
  {
    if values == [] {
      assert s.out + [] == s.out;
    } else {
      hide Writes, AlignTo, Emit;
      var m := AlignTo(s, AlignOf(w));
      AlignWrites(s, AlignOf(w));
      EmitOrStuck(m, Flat(values, w, s.c.le));
      WritesThen(s, m, PutBulk(s, w, values), Zeros(Pad(s.c, StreamPos(s), AlignOf(w))), Flat(values, w, s.c.le), true, true);
    }
  }

  lemma SentinelWrites(s: WState)
    requires Inv(s) && s.error == OK
    ensures Writes(s, PutSentinel(s), SentinelBytes(s.c, Pad(s.c, StreamPos(s), 4)), true)
  {
    hide Writes, AlignTo, Emit;
    var m := AlignTo(s, 4);
    var b := Put(PID_SENTINEL, 2, s.c.le) + Put(0, 2, s.c.le);
    AlignWrites(s, 4);
    EmitOrStuck(m, b);
    WritesThen(s, m, PutSentinel(s), Zeros(Pad(s.c, StreamPos(s), 4)), b, true, true);
    Assoc(Zeros(Pad(s.c, StreamPos(s), 4)), Put(PID_SENTINEL, 2, s.c.le), Put(0, 2, s.c.le));
  }

  lemma AlignedBy4(sp: nat, c: Cfg)
    ensures (sp + Pad(c, sp, 4)) % 4 == 0
    ensures Pad(c, sp + Pad(c, sp, 4), 4) == 0
    ensures Pad(c, sp + Pad(c, sp, 4) + 4, 4) == 0
  {
    AlignedAfter(c, sp, 4);
  }

  /** A 4-byte value written at an aligned position takes no padding. */
  lemma WordWrites(s: WState, v: nat)
    requires Inv(s) && s.error == OK && Pad(s.c, StreamPos(s), 4) == 0
    ensures Writes(s, PutScalar(s, 4, v), Put(v, 4, s.c.le), true)
  {
    ScalarWrites(s, 4, v);
    ScalarAligned(s.c, StreamPos(s), 4, v);
  }

  lemma StreamPosAfter(s: WState, r: WState, b: seq<byte>, ok: bool := true)
    requires Inv(s) && Writes(s, r, b, ok) && r.error == OK && Inv(r)
    ensures StreamPos(r) == StreamPos(s) + |b| && r.c == s.c
  {
  }

  lemma EmheaderWrites(s: WState, id: nat, len: nat, mu: bool)
    requires Inv(s) && s.error == OK
    ensures Writes(s, PutEmheader(s, id, len, mu), EmheaderBytes(s.c, StreamPos(s), id, len, mu), id <= MAX_MEMBER_ID)
  {
    var word := EmWord(id, LengthCode(len), mu);
    if id <= MAX_MEMBER_ID {
      var m := PutScalar(s, 4, word);
      ScalarWrites(s, 4, word);
      var b := ScalarBytes(s.c, StreamPos(s), 4, word);
      if LengthCode(len) == 4 {
        ThenWord(s, m, b, len);
      } else {
        assert b + [] == b;
      }
    }
  }

  /** A 4-byte value after one that was just aligned and written. */
  lemma ThenWord(s: WState, m: WState, b: seq<byte>, v: nat)
    requires Inv(s) && Inv(m) && s.error == OK && Writes(s, m, b, true)
    requires |b| == Pad(s.c, StreamPos(s), 4) + 4
    ensures Writes(s, PutScalar(m, 4, v), b + Put(v, 4, s.c.le), true)
  {
    hide PutScalar;
    if m.error == OK {
      AlignedBy4(StreamPos(s), s.c);
      StreamPosAfter(s, m, b);
      WordWrites(m, v);
    } else {
      ScalarStuck(m, 4, v);
    }
    WritesThen(s, m, PutScalar(m, 4, v), b, Put(v, 4, s.c.le), true, true);
  }

  lemma ScalarStuck(m: WState, w: nat, v: nat)
    requires Inv(m) && m.error != OK
    ensures PutScalar(m, w, v) == m
  {
  }

  lemma BeginDelimitedWrites(s: WState)
    requires Inv(s) && s.error == OK
    ensures Writes(s, BeginDelimited(s), Zeros(Pad(s.c, StreamPos(s), 4)) + Put(0, 4, s.c.le), true)
  {
    var m := AlignTo(s, 4);
    var z := Zeros(Pad(s.c, StreamPos(s), 4));
    AlignWrites(s, 4);
    hide AlignTo, PutScalar;
    if m.error == OK {
      StreamPosAfter(s, m, z);
      AlignedBy4(StreamPos(s), s.c);
      WordWrites(m, 0);
    } else {
      ScalarStuck(m, 4, 0);
    }
    WritesThen(s, m, BeginDelimited(s), z, Put(0, 4, s.c.le), true, true);
  }

  lemma BeginFramedWrites(s: WState, id: nat, mu: bool)
    requires Inv(s) && s.error == OK
    ensures Writes(s, BeginFramed(s, id, mu),
                   Zeros(Pad(s.c, StreamPos(s), 4)) + Put(EmWord(id, 4, mu), 4, s.c.le) + Put(0, 4, s.c.le),
                   id <= MAX_MEMBER_ID)
  {
    hide PutScalar;
    if id <= MAX_MEMBER_ID {
      var w := EmWord(id, 4, mu);
      ScalarWrites(s, 4, w);
      ThenWord(s, PutScalar(s, 4, w), ScalarBytes(s.c, StreamPos(s), 4, w), 0);
    }
  }

  lemma BeginParamWrites(s: WState, id: nat)
    requires Inv(s) && s.error == OK
    ensures Writes(s, BeginParam(s, id), Zeros(Pad(s.c, StreamPos(s), 4)) + Zeros(Reserve(id)), true)
  {
    hide Writes, AlignTo, Emit;
    var m := AlignTo(s, 4);
    AlignWrites(s, 4);
    EmitOrStuck(m, Zeros(Reserve(id)));
    WritesThen(s, m, BeginParam(s, id), Zeros(Pad(s.c, StreamPos(s), 4)), Zeros(Reserve(id)), true, true);
  }

  lemma PatchMiddle(a: seq<byte>, x: seq<byte>, y: seq<byte>, z: seq<byte>)
    ensures (a + x + z)[..|a|] == a
    ensures (a + x + z)[|a| + |x|..] == z
    ensures (a + x + z)[..|a|] + y + (a + x + z)[|a| + |x|..] == a + y + z
  {
  }

  /** Finalizing turns the placeholder in front of the body into the body's length. */
  lemma CloseLength(s: WState, mid: WState, pre: seq<byte>, body: seq<byte>)
    requires Inv(mid) && s.error == OK
    requires mid == s.(out := s.out + (pre + Put(0, 4, s.c.le)) + body)
    ensures |s.out| + |pre| + 4 <= |mid.out|
    ensures FinalizeLength(mid, |s.out| + |pre|) == s.(out := s.out + (pre + Put(|body|, 4, s.c.le) + body))
  {
    hide *;
    FinalizeUnfold(mid, |s.out| + |pre|);
    ClosedBytes(s.out, pre, Put(0, 4, s.c.le), Put(|body|, 4, s.c.le), body);
  }

  lemma FinalizeUnfold(s: WState, token: nat)
    requires Inv(s)
    ensures s.error == OK && token + 4 <= |s.out| ==>
              FinalizeLength(s, token) == s.(out := s.out[..token] + Put(|s.out| - token - 4, 4, s.c.le) + s.out[token + 4..])
  {
    hide Put;
  }

  lemma ClosedBytes(out: seq<byte>, pre: seq<byte>, zero: seq<byte>, len: seq<byte>, body: seq<byte>)
    requires |zero| == |len|
    ensures var mid := out + (pre + zero) + body;
            && |mid| == |out| + |pre| + |zero| + |body|
            && mid[..|out| + |pre|] + len + mid[|out| + |pre| + |len|..] == out + (pre + len + body)
  {
    Assoc(out, pre, zero);
    PatchMiddle(out + pre, zero, len, body);
    Assoc(out, pre, len);
    Assoc(out, pre + len, body);
  }

  /** The ids of the first call of a script, body included. */
  predicate HeadIdsFit(k: Calls) {
    match k
    case Emheader(id, _, _, _) => id <= MAX_MEMBER_ID
    case Delimited(body, _) => IdsFit(body)
    case Framed(id, _, body, _) => id <= MAX_MEMBER_ID && IdsFit(body)
    case Param(_, _, body, _) => IdsFit(body)
    case _ => true
  }

  /** Begin, body and finalize of a length header. */
  lemma LengthFrame(s: WState, b: WState, mid: WState, token: nat, pre: seq<byte>, body: seq<byte>, ok1: bool, ok2: bool)
    requires Inv(s) && Inv(mid) && s.error == OK
    requires Writes(s, b, pre + Put(0, 4, s.c.le), ok1)
    requires b.error == OK ==> Writes(b, mid, body, ok2)
    requires b.error != OK ==> mid == b
    requires mid.error == OK ==> token == |s.out| + |pre|
    ensures mid.error == OK ==> token + 4 <= |mid.out|
    ensures Writes(s, FinalizeLength(mid, token), pre + Put(|body|, 4, s.c.le) + body, ok1 && ok2)
  {
    hide Put, FinalizeLength;
    WritesThen(s, b, mid, pre + Put(0, 4, s.c.le), body, ok1, ok2);
    if mid.error == OK {
      Assoc(s.out, pre + Put(0, 4, s.c.le), body);
      CloseLength(s, mid, pre, body);
    }
  }

  lemma TokenAt(s: WState)
    requires Inv(s) && s.error == OK && AlignTo(s, 4).error == OK
    ensures AlignedToken(s) == |s.out| + Pad(s.c, StreamPos(s), 4)
  {
  }

  lemma IdsSplit(k: Calls)
    requires !k.Done?
    ensures IdsFit(k) <==> HeadIdsFit(k) && IdsFit(k.rest)
  {
  }

  lemma DelimitedWrites(s: WState, body: Calls, mid: WState)
    requires Inv(s) && s.error == OK
    requires Inv(mid) && mid == Run(BeginDelimited(s), body)
    requires BeginDelimited(s).error == OK ==>
               Writes(BeginDelimited(s), mid, Layout(s.c, body, StreamPos(BeginDelimited(s))), IdsFit(body))
    ensures mid.error == OK ==> AlignedToken(s) + 4 <= |mid.out|
    ensures Writes(s, FinalizeLength(mid, AlignedToken(s)),
                   DelimitedBytes(s.c, Pad(s.c, StreamPos(s), 4), Layout(s.c, body, StreamPos(s) + Pad(s.c, StreamPos(s), 4) + 4)),
                   IdsFit(body))
  {
    hide Layout, IdsFit, Pad, Put, Zeros;
    var z := Zeros(Pad(s.c, StreamPos(s), 4));
    var b := BeginDelimited(s);
    BeginDelimitedWrites(s);
    hide Run, BeginDelimited, FinalizeLength, AlignTo, AlignedToken;
    if b.error == OK {
      AlignOkBeforeDelimited(s);
      TokenAt(s);
      StreamPosAfter(s, b, z + Put(0, 4, s.c.le));
    }
    LengthFrame(s, b, mid, AlignedToken(s), z, Layout(s.c, body, StreamPos(s) + |z| + 4), true, IdsFit(body));
  }

  lemma AlignOkBeforeDelimited(s: WState)
    requires Inv(s) && BeginDelimited(s).error == OK
    ensures AlignTo(s, 4).error == OK
  {
  }

  lemma FramedTokenAt(s: WState, id: nat, mu: bool)
    requires Inv(s) && s.error == OK && BeginFramed(s, id, mu).error == OK
    ensures FramedToken(s) == |s.out| + Pad(s.c, StreamPos(s), 4) + 4
  {
  }

  lemma FramedWrites(s: WState, id: nat, mu: bool, body: Calls, mid: WState)
    requires Inv(s) && s.error == OK
    requires Inv(mid) && mid == Run(BeginFramed(s, id, mu), body)
    requires BeginFramed(s, id, mu).error == OK ==>
               Writes(BeginFramed(s, id, mu), mid, Layout(s.c, body, StreamPos(BeginFramed(s, id, mu))), IdsFit(body))
    ensures mid.error == OK ==> FramedToken(s) + 4 <= |mid.out|
    ensures Writes(s, FinalizeLength(mid, FramedToken(s)),
                   FramedBytes(s.c, Pad(s.c, StreamPos(s), 4), id, mu, Layout(s.c, body, StreamPos(s) + Pad(s.c, StreamPos(s), 4) + 8)),
                   id <= MAX_MEMBER_ID && IdsFit(body))
  {
    hide Layout, IdsFit, Pad, Put, Zeros, EmWord;
    var pre := Zeros(Pad(s.c, StreamPos(s), 4)) + Put(EmWord(id, 4, mu), 4, s.c.le);
    var b := BeginFramed(s, id, mu);
    BeginFramedWrites(s, id, mu);
    hide Run, BeginFramed, FinalizeLength, FramedToken;
    if b.error == OK {
      FramedTokenAt(s, id, mu);
      StreamPosAfter(s, b, pre + Put(0, 4, s.c.le), id <= MAX_MEMBER_ID);
    }
    LengthFrame(s, b, mid, FramedToken(s), pre, Layout(s.c, body, StreamPos(s) + |pre| + 4), id <= MAX_MEMBER_ID, IdsFit(body));
  }

  /** Finalizing a parameter: a short header is filled in, an outgrown one is widened in place. */
  lemma CloseParam(s: WState, mid: WState, z: seq<byte>, content: seq<byte>, id: nat, mu: bool)
    requires Inv(s) && Inv(mid) && s.error == OK
    requires mid == s.(out := s.out + (z + Zeros(Reserve(id))) + content)
    ensures |s.out| + |z| + Reserve(id) <= |mid.out|
    ensures var head := ParamHead(s.c, id, mu, |content|);
            var r := FinalizeParam(mid, id, mu, |s.out| + |z|);
            && (r.error == OK <==> |s.out| + |z + (head + content)| <= s.cap)
            && (r.error == OK ==> r == s.(out := s.out + (z + (head + content))))
  {
    hide ShortPid, ExtendedPid, Zeros;
    var a, x := s.out + z, Zeros(Reserve(id));
    var head := ParamHead(s.c, id, mu, |content|);
    Assoc(s.out, z, x);
    PatchMiddle(a, x, head, content);
    Assoc(a, head, content);
    Assoc(s.out, z, head + content);
  }

  lemma ParamTokenAt(s: WState, id: nat)
    requires Inv(s) && s.error == OK && BeginParam(s, id).error == OK
    ensures AlignedToken(s) == |s.out| + Pad(s.c, StreamPos(s), 4)
  {
  }

  /** The body of a parameter is the same bytes behind the short and behind the extended header. */
  lemma BehindEitherHeader(c: Cfg, body: Calls, sp: nat)
    ensures Layout(c, body, sp + 4) == Layout(c, body, sp + 12)
  {
    CongruentShift8(c, sp + 4);
    Translate(c, body, sp + 4, sp + 12);
  }

  lemma ParamWrites(s: WState, id: nat, mu: bool, body: Calls, mid: WState)
    requires Inv(s) && s.error == OK
    requires Inv(mid) && mid == Run(BeginParam(s, id), body)
    requires BeginParam(s, id).error == OK ==>
               Writes(BeginParam(s, id), mid, Layout(s.c, body, StreamPos(BeginParam(s, id))), IdsFit(body))
    ensures mid.error == OK ==> AlignedToken(s) + Reserve(id) <= |mid.out|
    ensures var sp := StreamPos(s) + Pad(s.c, StreamPos(s), 4);
            Writes(s, FinalizeParam(mid, id, mu, AlignedToken(s)),
                   ParamBytes(s.c, Pad(s.c, StreamPos(s), 4), id, mu, Layout(s.c, body, sp + 4), Layout(s.c, body, sp + 12)),
                   IdsFit(body))
  {
    hide *;
    var z := Zeros(Pad(s.c, StreamPos(s), 4));
    var sp := StreamPos(s) + |z|;
    var content := Layout(s.c, body, sp + Reserve(id));
    ParamBody(s, id, body, mid);
    BehindEitherHeader(s.c, body, sp);
    ReserveIs(id);
    if mid.error == OK {
      ParamTokenAt(s, id);
    }
    ParamCloses(s, mid, z, content, id, mu, IdsFit(body), AlignedToken(s));
    ParamBytesOf(s.c, Pad(s.c, StreamPos(s), 4), id, mu, content);
  }

  lemma ReserveIs(id: nat)
    ensures Reserve(id) == 4 || Reserve(id) == 12
  {
  }

  /** The reserved header and the body behind it. */
  lemma ParamBody(s: WState, id: nat, body: Calls, mid: WState)
    requires Inv(s) && s.error == OK
    requires Inv(mid) && mid == Run(BeginParam(s, id), body)
    requires BeginParam(s, id).error == OK ==>
               Writes(BeginParam(s, id), mid, Layout(s.c, body, StreamPos(BeginParam(s, id))), IdsFit(body))
    ensures var z := Zeros(Pad(s.c, StreamPos(s), 4));
            Writes(s, mid, z + Zeros(Reserve(id)) + Layout(s.c, body, StreamPos(s) + |z| + Reserve(id)), IdsFit(body))
    ensures mid.error == OK ==> BeginParam(s, id).error == OK
  {
    hide Layout, IdsFit, Pad, Put, Zeros, BeginParam, Writes;
    var z := Zeros(Pad(s.c, StreamPos(s), 4));
    var b := BeginParam(s, id);
    BeginParamWrites(s, id);
    var content := Layout(s.c, body, StreamPos(s) + |z| + Reserve(id));
    if b.error == OK {
      StreamPosAfter(s, b, z + Zeros(Reserve(id)));
    }
    WritesThen(s, b, mid, z + Zeros(Reserve(id)), content, true, IdsFit(body));
  }

  lemma ParamCloses(s: WState, mid: WState, z: seq<byte>, content: seq<byte>, id: nat, mu: bool, ids: bool, token: nat)
    requires Inv(s) && Inv(mid) && s.error == OK
    requires Writes(s, mid, z + Zeros(Reserve(id)) + content, ids)
    requires mid.error == OK ==> token == |s.out| + |z|
    ensures mid.error == OK ==> token + Reserve(id) <= |mid.out|
    ensures Writes(s, FinalizeParam(mid, id, mu, token), z + (ParamHead(s.c, id, mu, |content|) + content), ids)
  {
    hide ShortPid, ExtendedPid, Put, Zeros;
    if mid.error == OK {
      Assoc(s.out, z + Zeros(Reserve(id)), content);
      hide FinalizeParam;
      CloseParam(s, mid, z, content, id, mu);
    } else {
      HeadNotShorter(s.c, id, mu, |content|);
    }
  }

  function ParamHead(c: Cfg, id: nat, mu: bool, len: nat): seq<byte> {
    if UsesShortPid(id, len) then ShortPid(c, id, mu, len) else ExtendedPid(c, id, mu, len)
  }

  lemma HeadNotShorter(c: Cfg, id: nat, mu: bool, len: nat)
    ensures |ParamHead(c, id, mu, len)| >= Reserve(id)
  {
  }

  lemma ParamBytesOf(c: Cfg, pad: nat, id: nat, mu: bool, content: seq<byte>)
    ensures ParamBytes(c, pad, id, mu, content, content) == Zeros(pad) + (ParamHead(c, id, mu, |content|) + content)
  {
    hide ShortPid, ExtendedPid, Zeros;
  }

  lemma {:induction false} RunHeadWrites(s: WState, k: Calls)
    requires Inv(s) && s.error == OK && !k.Done?
    ensures Writes(s, RunHead(s, k), Head(s.c, k, StreamPos(s)), HeadIdsFit(k))
    decreases k, 0
  {
    hide Writes, Layout, Run, Pad, BeginDelimited, BeginFramed, BeginParam, FinalizeLength, FinalizeParam;
    hide PutScalar, PutBulk, PutText, PutEmheader, PutSentinel, AlignedToken, FramedToken, Put, EmWord, ShortPid, ExtendedPid;
    match k
    case Scalar(w, v, _) => ScalarWrites(s, w, v);
    case Bulk(w, vs, _) => BulkWrites(s, w, vs);
    case Text(t, _) => TextWrites(s, t);
    case Emheader(id, len, mu, _) => EmheaderWrites(s, id, len, mu);
    case Delimited(body, _) =>
      var b := BeginDelimited(s);
      if b.error == OK { RunWrites(b, body); }
      DelimitedWrites(s, body, Run(b, body));
    case Framed(id, mu, body, _) =>
      var b := BeginFramed(s, id, mu);
      if b.error == OK { RunWrites(b, body); }
      FramedWrites(s, id, mu, body, Run(b, body));
    case Param(id, mu, body, _) =>
      var b := BeginParam(s, id);
      if b.error == OK { RunWrites(b, body); }
      ParamWrites(s, id, mu, body, Run(b, body));
    case Sentinel(_) => SentinelWrites(s);
  }

  /**
    Any well-nested script, from any good state: the writer succeeds exactly when every EMHEADER id
    fits and the layout fits in the buffer, and then it has appended exactly the layout.
   */
  lemma {:induction false} RunWrites(s: WState, k: Calls)
    requires Inv(s) && s.error == OK
    ensures Writes(s, Run(s, k), Layout(s.c, k, StreamPos(s)), IdsFit(k))
    decreases k, 1
  {
    if k.Done? {
      assert s.out + [] == s.out;
    } else {
      hide *;
      RunHeadWrites(s, k);
      var m := RunHead(s, k);
      if m.error == OK {
        RunWrites(m, k.rest);
      }
      RunWritesCons(s, k);
    }
  }

  lemma RunWritesCons(s: WState, k: Calls)
    requires Inv(s) && s.error == OK && !k.Done?
    requires Writes(s, RunHead(s, k), Head(s.c, k, StreamPos(s)), HeadIdsFit(k))
    requires var m := RunHead(s, k);
             m.error == OK ==> Writes(m, Run(m, k.rest), Layout(m.c, k.rest, StreamPos(m)), IdsFit(k.rest))
    ensures Writes(s, Run(s, k), Layout(s.c, k, StreamPos(s)), IdsFit(k))
  {
    hide *;
    var m := RunHead(s, k);
    var h := Head(s.c, k, StreamPos(s));
    IdsSplit(k);
    Unfold(s, k);
    if m.error == OK {
      StreamPosAfter(s, m, h, HeadIdsFit(k));
    } else {
      RunStuck(m, k.rest);
    }
    WritesThen(s, m, Run(m, k.rest), h, Layout(s.c, k.rest, StreamPos(s) + |h|), HeadIdsFit(k), IdsFit(k.rest));
  }

  lemma RunStuck(m: WState, k: Calls)
    requires Inv(m) && m.error != OK
    ensures Run(m, k) == m
  {
    hide Run;
  }

  lemma Unfold(s: WState, k: Calls)
    requires Inv(s) && !k.Done?
    ensures Run(s, k) == Run(RunHead(s, k), k.rest)
    ensures var h := Head(s.c, k, StreamPos(s)); Layout(s.c, k, StreamPos(s)) == h + Layout(s.c, k.rest, StreamPos(s) + |h|)
  {
    hide RunHead, Head;
  }

  lemma {:induction false} PerElementIds(w: nat, values: seq<nat>)
    ensures IdsFit(PerElement(w, values))
  {
    if values != [] {
      PerElementIds(w, values[1..]);
    }
  }

  /** From every good state the bulk write and the element-by-element loop succeed together, and then end in the same state. */
  lemma BulkRunsAlike(s: WState, w: nat, values: seq<nat>)
    requires Inv(s) && s.error == OK && (w == 1 || w == 2 || w == 4 || w == 8)
    ensures var a, b := Run(s, Bulk(w, values, Done)), Run(s, PerElement(w, values));
            && (a.error == OK <==> b.error == OK)
            && (a.error == OK ==> a == b)
  {
    PerElementIds(w, values);
    assert IdsFit(Done);
    RunWrites(s, Bulk(w, values, Done));
    RunWrites(s, PerElement(w, values));
    BulkIsPerElement(s.c, w, values, StreamPos(s));
    hide Run, Layout, PerElement;
  }
}
