/**
 The transfer loop of RETR in src/ftp_commands.c: bursts of sendfile that fall back to a
 read() cooldown when the driver stalls. The kernel and the peer are an oracle that answers
 each call in turn; the file is not changed during the transfer.
 */
module Retr {
  import opened Common

  const SENDFILE_CHUNK: nat := 2 * 1024 * 1024
  const COOLDOWN: nat := 4 * 1024 * 1024
  const EAGAIN_RETRIES: nat := 256

  /** One return of pal_sendfile: bytes sent, 0, EINTR, a fatal storage error, any other error. */
  datatype SendfileResult = Sent(n: nat) | SfEintr | SfFatal | SfError

  /** One return of vfs_read: up to n bytes, EINTR, or an error. */
  datatype ReadResult = Got(n: nat) | RdEintr | RdError

  /** One return of ftp_session_send_data: all bytes, or a failure after some of them. */
  datatype SendResult = SentAll | SentPart(n: nat)

  datatype World = World(
    file: seq<Byte>,
    sendfile: nat -> SendfileResult,
    read: nat -> ReadResult,
    send: nat -> SendResult,
    canSendfile: bool,               // VFS_CAP_SENDFILE
    plain: bool,                     // no encryption and no rate limit
    bufferSize: nat,                 // 0 when the pool had no buffer
    quiet: nat                       // calls are not interrupted from this one on
  )

  ghost predicate Sane(w: World) {
    forall i: nat :: i >= w.quiet ==> !w.sendfile(i).SfEintr? && !w.read(i).RdEintr?
  }

  datatype State = State(
    remaining: nat,
    offset: nat,                     // sendfile's offset
    nodeOffset: nat,                 // the read() position
    bytesSent: nat,
    useSendfile: bool,
    wire: seq<Byte>,                 // what the peer has been sent
    calls: nat,
    log: seq<Call>                   // the sendfile and read calls so far
  )

  /**
   A sendfile call of the burst, the r-th retry (an interrupted one does not count), or a read with
   the answer to the send that follows if there is something to send.
   */
  datatype Call =
    | First(answer: SendfileResult)
    | Again(r: nat, answer: SendfileResult)
    | Read(got: ReadResult, out: SendResult)

  predicate IsSendfile(c: Call) {
    !c.Read?
  }

  predicate Fatal(c: Call) {
    !c.Read? && c.answer.SfFatal?
  }

  /** A read that got nothing and was not interrupted, or whose data did not all go out. */
  predicate Failed(c: Call) {
    c.Read? && (c.got.RdError? || c.got == Got(0) || (c.got.Got? && c.out.SentPart?))
  }

  /**
   The log holds what the kernel and the peer answered, call by call; sendfile is used only on files
   that can do it and data that goes out as it is, and read() only with a buffer.
   */
  ghost predicate Truthful(w: World, log: seq<Call>) {
    forall i :: 0 <= i < |log| ==> AnswerIs(w, log[i], i)
  }

  predicate AnswerIs(w: World, c: Call, i: nat) {
    if c.Read? then c.got == w.read(i) && c.out == w.send(i) && w.bufferSize > 0
    else c.answer == w.sendfile(i) && w.canSendfile && w.plain
  }

  ghost predicate NoneFailed(log: seq<Call>) {
    forall c :: c in log ==> !Failed(c)
  }

  /** The transfer broke off at the last call, which is a read that failed. */
  ghost predicate FailedLast(log: seq<Call>) {
    log != [] && Failed(log[|log| - 1]) && NoneFailed(log[..|log| - 1])
  }

  /** Every call is in the log with its answer, and no read has failed. */
  ghost predicate Smooth(w: World, s: State) {
    s.calls == |s.log| && Truthful(w, s.log) && NoneFailed(s.log)
  }

  lemma SmoothMore(w: World, s: State, c: Call)
    requires Smooth(w, s) && AnswerIs(w, c, s.calls)
    ensures Truthful(w, s.log + [c])
    ensures if Failed(c) then FailedLast(s.log + [c]) else NoneFailed(s.log + [c])
  {
    var l := s.log + [c];
    assert l[..|l| - 1] == s.log;
  }

  /** A retry that is not the last one. */
  predicate Early(c: Call) {
    c.Again? && c.r < EAGAIN_RETRIES - 1
  }

  /** After a fatal answer the next call is a sendfile call exactly when it was given to an early retry. */
  ghost predicate Ruled(log: seq<Call>) {
    forall i :: 0 <= i < |log| - 1 && Fatal(log[i]) ==> (IsSendfile(log[i + 1]) <==> Early(log[i]))
  }

  /** No fatal answer is pending; one that must lead to a read may be. */
  ghost predicate Clean(log: seq<Call>) {
    Ruled(log) && (log == [] || !Fatal(log[|log| - 1]))
  }

  ghost predicate Stopped(log: seq<Call>) {
    Ruled(log) && (log == [] || !(Fatal(log[|log| - 1]) && Early(log[|log| - 1])))
  }

  lemma LogSendfile(log: seq<Call>, c: Call)
    requires IsSendfile(c) && (Clean(log) || (Ruled(log) && log != [] && Early(log[|log| - 1])))
    ensures Ruled(log + [c]) && (!Fatal(c) ==> Clean(log + [c])) && (!Early(c) ==> Stopped(log + [c]))
  {
    var l := log + [c];
    forall i | 0 <= i < |l| - 1 && Fatal(l[i]) ensures IsSendfile(l[i + 1]) <==> Early(l[i]) {
      assert l[i] == log[i] && (i + 1 < |log| ==> l[i + 1] == log[i + 1]);
    }
  }

  lemma LogRead(log: seq<Call>, c: Call)
    requires Stopped(log) && c.Read?
    ensures Clean(log + [c])
  {
    var l := log + [c];
    forall i | 0 <= i < |l| - 1 && Fatal(l[i]) ensures IsSendfile(l[i + 1]) <==> Early(l[i]) {
      assert l[i] == log[i] && (i + 1 < |log| ==> l[i + 1] == log[i + 1]);
    }
  }

  /** The file from the restart offset on has been sent up to `remaining` bytes before its end. */
  ghost predicate Sending(w: World, restart: nat, s: State) {
    && restart <= |w.file|
    && s.remaining <= |w.file| - restart
    && s.wire == w.file[restart..|w.file| - s.remaining]
    && s.bytesSent == |s.wire|
  }

  /** sendfile continues where the wire ends. */
  ghost predicate SfSynced(w: World, s: State) {
    s.remaining <= |w.file| && s.offset == |w.file| - s.remaining
  }

  /** read() continues where the wire ends. */
  ghost predicate RdSynced(w: World, s: State) {
    s.remaining <= |w.file| && s.nodeOffset == |w.file| - s.remaining
  }

  function Min(a: nat, b: nat): nat {
    if a < b then a else b
  }

  /** pal_sendfile with its documented effect: `sent` bytes from *offset go out and *offset moves. */
  method Sendfile(w: World, s: State, retry: Option<nat>) returns (sent: nat, r: SendfileResult, s': State)
    requires s.offset + s.remaining <= |w.file|
    ensures r == w.sendfile(s.calls)
    ensures sent == (if r.Sent? then Min(r.n, Min(s.remaining, SENDFILE_CHUNK)) else 0)
    ensures s' == Went(w, s, sent, CallOf(retry, r))
  {
    r := w.sendfile(s.calls);
    sent := if r.Sent? then Min(r.n, Min(s.remaining, SENDFILE_CHUNK)) else 0;
    s' := Went(w, s, sent, CallOf(retry, r));
  }

  function CallOf(retry: Option<nat>, r: SendfileResult): Call {
    match retry
    case None => First(r)
    case Some(k) => Again(k, r)
  }

  function Went(w: World, s: State, sent: nat, c: Call): State
    requires s.offset + sent <= |w.file|
  {
    s.(calls := s.calls + 1, offset := s.offset + sent, wire := s.wire + w.file[s.offset..s.offset + sent],
      log := s.log + [c])
  }

  lemma NothingSent(w: World, s: State, c: Call)
    requires s.offset <= |w.file|
    ensures Went(w, s, 0, c) == s.(calls := s.calls + 1, log := s.log + [c])
  {
    assert w.file[s.offset..s.offset] == [];
    assert s.wire + [] == s.wire;
  }

  /** The bookkeeping after bytes went out through sendfile. */
  function Count(s: State, sent: nat): State
    requires sent <= s.remaining
  {
    s.(remaining := s.remaining - sent, bytesSent := s.bytesSent + sent)
  }

  lemma SentKeeps(w: World, restart: nat, s: State, sent: nat, c: Call)
    requires Sending(w, restart, s) && SfSynced(w, s) && sent <= s.remaining
    ensures var s' := Count(Went(w, s, sent, c), sent); Sending(w, restart, s') && SfSynced(w, s')
  {
    var e := |w.file| - s.remaining;
    assert w.file[restart..e] + w.file[e..e + sent] == w.file[restart..e + sent];
  }

  /** The back-pressure retries after sendfile sent nothing. */
  method Retry(w: World, restart: nat, s0: State) returns (recovered: bool, s: State)
    requires Sane(w) && Sending(w, restart, s0) && SfSynced(w, s0) && s0.remaining > 0 && Clean(s0.log)
    requires Smooth(w, s0) && w.canSendfile && w.plain
    ensures Sending(w, restart, s) && SfSynced(w, s) && s.useSendfile == s0.useSendfile && Smooth(w, s)
    ensures recovered ==> s.remaining < s0.remaining && Clean(s.log)
    ensures !recovered ==> s == s0.(calls := s.calls, log := s.log) && s.calls >= s0.calls + EAGAIN_RETRIES
    ensures !recovered ==> Stopped(s.log)
    ensures s0.log + [Again(0, w.sendfile(s0.calls))] <= s.log
  {
    s := s0;
    var r := 0;
    while r < EAGAIN_RETRIES
      invariant 0 <= r <= EAGAIN_RETRIES && s == s0.(calls := s.calls, log := s.log) && s.calls >= s0.calls + r
      invariant Clean(s.log)
        || (Ruled(s.log) && s.log != [] && s.log[|s.log| - 1].Again? && s.log[|s.log| - 1].r == r - 1)
      invariant s == s0 || s0.log + [Again(0, w.sendfile(s0.calls))] <= s.log
      invariant (s == s0 ==> r == 0) && Smooth(w, s)
      decreases EAGAIN_RETRIES - r, if w.quiet > s.calls then w.quiet - s.calls else 0
    {
      var sent, res, s' := Sendfile(w, s, Some(r));
      LogSendfile(s.log, Again(r, res));
      SmoothMore(w, s, Again(r, res));
      if sent > 0 {
        SentKeeps(w, restart, s, sent, Again(r, res));
        return true, Count(s', sent);
      }
      NothingSent(w, s, Again(r, res));
      s := s';
      if !res.SfEintr? {
        r := r + 1;
      }
    }
    recovered := false;
  }

  /** One sendfile call of the burst and what follows from it; `stop` ends the burst. */
  method BurstOnce(w: World, restart: nat, s0: State, sentAny: bool) returns (s: State, stop: bool)
    requires Sane(w) && Sending(w, restart, s0) && SfSynced(w, s0) && s0.useSendfile && s0.remaining > 0
      && Clean(s0.log) && Smooth(w, s0) && w.canSendfile && w.plain
    ensures Sending(w, restart, s) && s.remaining <= s0.remaining && s0.log <= s.log && Smooth(w, s)
    ensures s0.log + [First(w.sendfile(s0.calls))] <= s.log
    ensures if stop then RdSynced(w, s) && s.remaining == s0.remaining && Stopped(s.log) && (s.useSendfile ==> sentAny)
            else SfSynced(w, s) && s.useSendfile && Clean(s.log)
    ensures !stop && s.remaining == s0.remaining ==> s.calls == s0.calls + 1 && w.sendfile(s0.calls).SfEintr?
    ensures w.sendfile(s0.calls) == Sent(0) ==> s0.log + [First(Sent(0)), Again(0, w.sendfile(s0.calls + 1))] <= s.log
  {
    var sent, res, s' := Sendfile(w, s0, None);
    LogSendfile(s0.log, First(res));
    SmoothMore(w, s0, First(res));
    if sent > 0 {
      SentKeeps(w, restart, s0, sent, First(res));
      return Count(s', sent), false;
    }
    NothingSent(w, s0, First(res));
    s := s';
    if res.SfEintr? {
      return s, false;
    }
    if res.SfFatal? {
      return s.(nodeOffset := s.offset, useSendfile := false), true;
    }
    var recovered;
    recovered, s := Retry(w, restart, s);
    Joined(s0.log, res, w.sendfile(s'.calls), s.log);
    if recovered {
      return s, false;
    }
    s := s.(nodeOffset := s.offset, useSendfile := sentAny);
    stop := true;
  }

  /** The sendfile burst; it ends with the file done, a fatal error or a stall. */
  method Burst(w: World, restart: nat, s0: State) returns (s: State)
    requires Sane(w) && Sending(w, restart, s0) && SfSynced(w, s0) && s0.useSendfile && Clean(s0.log)
      && s0.remaining > 0 && Smooth(w, s0) && w.canSendfile && w.plain
    ensures Sending(w, restart, s) && s.remaining <= s0.remaining && Stopped(s.log) && s0.log <= s.log && Smooth(w, s)
    ensures s0.log + [First(w.sendfile(s0.calls))] <= s.log
    ensures s.remaining > 0 ==> RdSynced(w, s)
    ensures s.useSendfile && s.remaining > 0 ==> s.remaining < s0.remaining
    ensures w.sendfile(s0.calls) == Sent(0) ==> s0.log + [First(Sent(0)), Again(0, w.sendfile(s0.calls + 1))] <= s.log
  {
    var stop;
    s, stop := BurstOnce(w, restart, s0, false);
    ghost var log := s.log;
    var sentAny := s.remaining < s0.remaining;
    while !stop && s.remaining > 0
      invariant Sending(w, restart, s) && s.remaining <= s0.remaining && log <= s.log && Smooth(w, s)
      invariant if stop then RdSynced(w, s) && Stopped(s.log) && (s.useSendfile ==> sentAny)
                else SfSynced(w, s) && s.useSendfile && Clean(s.log)
      invariant sentAny <==> s.remaining < s0.remaining
      decreases !stop, s.remaining, if w.quiet > s.calls then w.quiet - s.calls else 0
    {
      s, stop := BurstOnce(w, restart, s, sentAny);
      sentAny := s.remaining < s0.remaining;
    }
  }

  lemma Joined(log: seq<Call>, a: SendfileResult, b: SendfileResult, l: seq<Call>)
    requires log + [First(a)] + [Again(0, b)] <= l
    ensures log + [First(a), Again(0, b)] <= l && log + [First(a)] <= l && log <= l
  {
    assert log + [First(a)] + [Again(0, b)] == log + [First(a), Again(0, b)];
  }

  datatype Progress = Interrupted | Moved(n: nat) | Broken

  /** One read() of at most `want` bytes and the sending of what it returned. */
  method ReadOnce(w: World, restart: nat, s0: State, want: nat) returns (s: State, p: Progress)
    requires Sending(w, restart, s0) && RdSynced(w, s0) && 0 < want <= s0.remaining && Stopped(s0.log)
    ensures s.useSendfile == s0.useSendfile && Clean(s.log) && s.calls == s0.calls + 1
    ensures s.log == s0.log + [Read(w.read(s0.calls), w.send(s0.calls))]
    ensures p.Broken? <==> Failed(Read(w.read(s0.calls), w.send(s0.calls)))
    ensures !p.Broken? ==> Sending(w, restart, s) && RdSynced(w, s)
    ensures p.Interrupted? ==> s.remaining == s0.remaining && w.read(s0.calls).RdEintr?
    ensures p.Moved? ==> 0 < p.n <= want && s.remaining == s0.remaining - p.n
    ensures p.Broken? ==> s.remaining > 0 && s.wire <= w.file[restart..] && s.wire != w.file[restart..]
  {
    var r, out := w.read(s0.calls), w.send(s0.calls);
    LogRead(s0.log, Read(r, out));
    s := s0.(calls := s0.calls + 1, log := s0.log + [Read(r, out)]);
    var n := if r.Got? then Min(r.n, want) else 0;
    if n == 0 {
      Unfinished(w, restart, s, 0);
      return s, if r.RdEintr? then Interrupted else Broken;
    }
    s, p := SendOn(w, restart, s, n, out);
  }

  /** The `n` bytes read go out, all of them or a proper part. */
  method SendOn(w: World, restart: nat, s0: State, n: nat, out: SendResult) returns (s: State, p: Progress)
    requires Sending(w, restart, s0) && RdSynced(w, s0) && 0 < n <= s0.remaining
    ensures s.useSendfile == s0.useSendfile && s.log == s0.log && s.calls == s0.calls
    ensures p == if out.SentPart? then Broken else Moved(n)
    ensures p.Moved? ==> Sending(w, restart, s) && RdSynced(w, s) && s.remaining == s0.remaining - n
    ensures p.Broken? ==> s.remaining > 0 && s.wire <= w.file[restart..] && s.wire != w.file[restart..]
  {
    s := s0;
    var data := w.file[s.nodeOffset..s.nodeOffset + n];
    if out.SentPart? {
      var part := Min(out.n, n - 1);
      Unfinished(w, restart, s, part);
      return s.(nodeOffset := s.nodeOffset + n, wire := s.wire + data[..part], remaining := 1), Broken;
    }
    Stretches(w.file, restart, s.nodeOffset, s.nodeOffset + n);
    s := s.(nodeOffset := s.nodeOffset + n, wire := s.wire + data, bytesSent := s.bytesSent + n,
      remaining := s.remaining - n);
    p := Moved(n);
  }

  /** The read() path: a limited cooldown or the rest of the file. */
  method ReadPath(w: World, restart: nat, s0: State, limit: nat) returns (s: State, failed: bool)
    requires Sane(w) && Sending(w, restart, s0) && RdSynced(w, s0) && 0 < limit <= s0.remaining && w.bufferSize > 0
    requires Stopped(s0.log) && Smooth(w, s0)
    ensures Truthful(w, s.log) && s.calls == |s.log| && if failed then FailedLast(s.log) else NoneFailed(s.log)
    ensures !failed ==> Sending(w, restart, s) && RdSynced(w, s) && s.remaining == s0.remaining - limit
    ensures failed ==> s.remaining > 0 && s.wire <= w.file[restart..] && s.wire != w.file[restart..]
    ensures s.useSendfile == s0.useSendfile && Clean(s.log) && s0.log <= s.log
  {
    s := s0;
    failed := false;
    var left := limit;
    while s.remaining > 0 && left > 0
      invariant Sending(w, restart, s) && RdSynced(w, s) && s.useSendfile == s0.useSendfile
      invariant 0 <= left <= s.remaining && s.remaining - left == s0.remaining - limit
      invariant Stopped(s.log) && s0.log <= s.log && (left < limit ==> Clean(s.log)) && Smooth(w, s)
      decreases left, if w.quiet > s.calls then w.quiet - s.calls else 0
    {
      var p;
      SmoothMore(w, s, Read(w.read(s.calls), w.send(s.calls)));
      s, p := ReadOnce(w, restart, s, Min(Min(s.remaining, w.bufferSize), left));
      if p.Broken? {
        return s, true;
      }
      if p.Moved? {
        left := left - p.n;
      }
    }
  }

  /** Sending fewer bytes than remain leaves a proper prefix on the wire. */
  lemma Unfinished(w: World, restart: nat, s: State, part: nat)
    requires Sending(w, restart, s) && part < s.remaining
    ensures var e := |w.file| - s.remaining;
            var wire := s.wire + w.file[e..e + part];
            wire <= w.file[restart..] && wire != w.file[restart..]
    ensures part == 0 ==> s.wire + w.file[|w.file| - s.remaining..|w.file| - s.remaining + part] == s.wire
  {
    var e := |w.file| - s.remaining;
    Stretches(w.file, restart, e, e + part);
  }

  /** Two neighbouring stretches of a file make one. */
  lemma Stretches(f: seq<Byte>, a: nat, b: nat, c: nat)
    requires a <= b <= c <= |f|
    ensures f[a..b] + f[b..c] == f[a..c] && f[a..c] == f[a..][..c - a] && f[a..c] <= f[a..] && |f[a..c]| == c - a
  {
  }

  datatype Reply = R226 | R425 | R426 | R550

  /**
   One pass of the outer loop. It either ends the transfer or sends a whole cooldown's worth,
   so the loop terminates whatever the kernel answers.
   */
  method Pass(w: World, restart: nat, s0: State) returns (s: State, over: bool)
    requires Sane(w) && Sending(w, restart, s0) && s0.remaining > 0
    requires (if s0.useSendfile then SfSynced(w, s0) else RdSynced(w, s0)) && Clean(s0.log) && Smooth(w, s0)
    requires s0.useSendfile ==> w.canSendfile && w.plain
    ensures Stopped(s.log) && s0.log <= s.log && (!over ==> Clean(s.log))
    ensures s0.useSendfile ==> s0.log + [First(w.sendfile(s0.calls))] <= s.log
    ensures !over ==> w.canSendfile && w.plain
    ensures Truthful(w, s.log) && s.calls == |s.log|
    ensures if over && s.remaining > 0 && w.bufferSize > 0 then FailedLast(s.log) else NoneFailed(s.log)
    ensures s0.useSendfile && w.sendfile(s0.calls) == Sent(0) ==>
              s0.log + [First(Sent(0)), Again(0, w.sendfile(s0.calls + 1))] <= s.log
    ensures !over ==> Sending(w, restart, s) && s.remaining > 0 && s.useSendfile && SfSynced(w, s)
    ensures !over ==> s.remaining + COOLDOWN <= s0.remaining
    ensures over && s.remaining == 0 ==> s.wire == w.file[restart..]
    ensures over && s.remaining > 0 ==> s.wire <= w.file[restart..] && s.wire != w.file[restart..]
  {
    s := s0;
    if s.useSendfile {
      s := Burst(w, restart, s);
      if s.remaining == 0 {
        return s, true;
      }
    }
    if w.bufferSize == 0 {
      Unfinished(w, restart, s, 0);
      return s.(remaining := 1), true;
    }
    var canRetry := w.canSendfile && s.useSendfile && s.bytesSent > 0 && s.remaining > COOLDOWN;
    var failed;
    s, failed := ReadPath(w, restart, s, if canRetry then COOLDOWN else s.remaining);
    if failed {
      return s, true;
    }
    if canRetry && s.remaining > 0 {
      s := s.(useSendfile := true, offset := |w.file| - s.remaining);
    }
    over := s.remaining == 0;
  }

  /**
   cmd_RETR from the offset check to the reply; `dataOk` tells whether the data connection opens.
   The calls made are reported as well.
   */
  method Retrieve(w: World, restart: int, dataOk: bool) returns (reply: Reply, wire: seq<Byte>, log: seq<Call>)
    requires Sane(w)
    ensures reply == R550 <==> restart < 0 || restart > |w.file|
    ensures reply == R425 <==> 0 <= restart <= |w.file| && !dataOk
    ensures reply == R550 || reply == R425 ==> wire == [] && log == []
    ensures reply == R226 || reply == R426 ==>
      wire <= w.file[restart..] && (reply == R226 <==> wire == w.file[restart..])
    ensures Obeys(log) && Truthful(w, log)
    ensures reply == R426 && w.bufferSize > 0 ==> FailedLast(log)
    ensures reply == R226 ==> NoneFailed(log)
    ensures dataOk && 0 <= restart <= |w.file| && Helpful(w) ==> reply == R226
    ensures dataOk && 0 <= restart < |w.file| && w.canSendfile && w.plain ==> [First(w.sendfile(0))] <= log
    ensures dataOk && 0 <= restart < |w.file| && w.canSendfile && w.plain && w.sendfile(0) == Sent(0) ==>
              [First(Sent(0)), Again(0, w.sendfile(1))] <= log
  {
    if restart < 0 || restart > |w.file| {
      return R550, [], [];
    }
    if !dataOk {
      return R425, [], [];
    }
    var s := State(|w.file| - restart, restart, restart, 0, w.canSendfile && w.plain, [], 0, []);
    assert w.file[restart..restart] == [];
    ghost var stalls := w.canSendfile && w.plain && w.sendfile(0) == Sent(0);
    ghost var start := [First(Sent(0)), Again(0, w.sendfile(1))];
    while s.remaining > 0
      invariant Sending(w, restart, s) && Clean(s.log) && Smooth(w, s)
      invariant s.remaining > 0 ==> if s.useSendfile then SfSynced(w, s) else RdSynced(w, s)
      invariant s.useSendfile ==> w.canSendfile && w.plain
      invariant w.canSendfile && w.plain && restart < |w.file| ==>
        || (s.calls == 0 && s.log == [] && s.useSendfile && s.remaining == |w.file| - restart)
        || [First(w.sendfile(0))] <= s.log
      invariant stalls ==>
        || (s.calls == 0 && s.log == [] && s.useSendfile && s.remaining == |w.file| - restart)
        || start <= s.log
      decreases s.remaining
    {
      var over;
      ghost var before := s.log;
      s, over := Pass(w, restart, s);
      assert before == [] ==> before + start == start && before + [First(w.sendfile(0))] == [First(w.sendfile(0))];
      StoppedObeys(s.log);
      HelpfulNeverFails(w, s.log);
      if over {
        return (if s.remaining == 0 then R226 else R426), s.wire, s.log;
      }
    }
    return R226, s.wire, s.log;
  }

  /** There is a buffer, no read fails or comes back empty, every send goes through; sendfile may do what it likes. */
  ghost predicate Helpful(w: World) {
    && w.bufferSize > 0
    && (forall i: nat :: w.read(i).RdEintr? || (w.read(i).Got? && w.read(i).n > 0))
    && (forall i: nat :: w.send(i).SentAll?)
  }

  lemma HelpfulNeverFails(w: World, log: seq<Call>)
    requires Truthful(w, log)
    ensures Helpful(w) ==> !FailedLast(log)
  {
    if log != [] {
      assert AnswerIs(w, log[|log| - 1], |log| - 1);
    }
  }

  /**
   The call after a fatal sendfile answer is another sendfile call if and only if the answer was
   given to a retry before the last; after any other fatal answer sendfile is given up for now.
   */
  ghost predicate Obeys(log: seq<Call>) {
    forall i :: 0 <= i < |log| && Fatal(log[i]) ==> (FollowedBySendfile(log, i) <==> Early(log[i]))
  }

  predicate FollowedBySendfile(log: seq<Call>, i: nat) {
    i + 1 < |log| && IsSendfile(log[i + 1])
  }

  lemma StoppedObeys(log: seq<Call>)
    requires Stopped(log)
    ensures Obeys(log)
  {
  }

  /** Such a call does happen: no data, then a fatal error, then another attempt. */
  method FatalRetried(w: World) returns (log: seq<Call>)
    requires Sane(w) && w.file != [] && w.canSendfile && w.plain && w.sendfile(0) == Sent(0) && w.sendfile(1) == SfFatal
    ensures |log| > 1 && Fatal(log[1]) && FollowedBySendfile(log, 1)
  {
    var reply, wire;
    reply, wire, log := Retrieve(w, 0, true);
    assert log[1] == Again(0, SfFatal) && Fatal(log[1]) && Early(log[1]);
  }
}
