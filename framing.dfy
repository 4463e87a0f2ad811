/** The read loop of `do_recv`: how the node cuts one reply out of the
    chunks that successive recv() calls return. The socket is an input
    sequence of recv() results; the loop keeps two variables, `first_time`
    and the accumulated reply `rb`.

    `FrameFrom` states, step for step, what the loop does from a given
    state; `ReadMessage` is the loop itself, proved to agree with it; the
    lemmas after them say what the reply is in terms of the chunks alone. */
module Framing {
  import opened Outcomes
  import opened CString

  newtype byte = b: int | 0 <= b < 256

  /** recv() is asked for at most this many bytes. */
  const ReadSize: nat := 4096
  /** The synchronous-idle byte the server sends to probe for dead peers. */
  const Idle: byte := 0x16
  const Newline: byte := 0x0A
  const Nul: byte := 0

  /** What one successful recv(fd, buf, 4096, 0) delivers. */
  type Chunk = c: seq<byte> | 1 <= |c| <= 4096 witness [Newline]

  /** The result of one recv() call: negative, zero, or a chunk. */
  datatype RecvResult = RecvError | EndOfStream | Data(chunk: Chunk)

  /** A chunk the loop skips: exactly the one byte 0x16. */
  predicate IsIdle(c: Chunk)
  {
    |c| == 1 && c[0] == Idle
  }

  /** The raw last byte of the chunk (not of its C-string view) is '\n'. */
  predicate EndsWithNewline(c: Chunk)
  {
    c[|c| - 1] == Newline
  }

  /** The condition under which the first substantive chunk is returned
      alone: it did not fill the buffer and ends in '\n' or `garbage`. */
  predicate FastPath(c: Chunk, garbage: bool)
  {
    |c| < ReadSize && (EndsWithNewline(c) || garbage)
  }

  /** What the loop leaves behind: its outcome and how many recv()
      results it consumed. */
  datatype LoopEnd = LoopEnd(outcome: Outcome<seq<byte>>, used: nat)

  function Later(f: LoopEnd, n: nat): LoopEnd
  {
    LoopEnd(f.outcome, f.used + n)
  }

  /** The loop run from state (`firstTime`, `rb`) on `results`. A chunk is
      appended through its C-string view (`rb += buf`), so it is cut at its
      first NUL byte; the fast path returns that view of the chunk alone. */
  function FrameFrom(results: seq<RecvResult>, garbage: bool, firstTime: bool, rb: seq<byte>): (f: LoopEnd)
    ensures f.used <= |results|
    ensures f.outcome.Blocked? ==> f.used == |results|
    ensures !f.outcome.Blocked? ==> f.used >= 1
    decreases |results|
  {
    if results == [] then LoopEnd(Blocked, 0)
    else match results[0]
      case RecvError => LoopEnd(Raised(RecvFailed), 1)
      case EndOfStream => LoopEnd(Raised(PeerClosed), 1)
      case Data(c) =>
        if IsIdle(c) then Later(FrameFrom(results[1..], garbage, firstTime, rb), 1)
        else if firstTime && FastPath(c, garbage) then LoopEnd(Done(CStr(c, Nul)), 1)
        else if EndsWithNewline(c) then LoopEnd(Done(rb + CStr(c, Nul)), 1)
        else Later(FrameFrom(results[1..], garbage, false, rb + CStr(c, Nul)), 1)
  }

  /** `do_recv`'s loop from its initial state. */
  function Frame(results: seq<RecvResult>, garbage: bool): LoopEnd
  {
    FrameFrom(results, garbage, true, [])
  }

  /** The read loop of `do_recv`, once the connection check has passed:
      `results` are the results its successive recv() calls return. The
      descriptor is not touched here; a zero read comes back as
      `Raised(PeerClosed)` for the caller to close. */
  method ReadMessage(results: seq<RecvResult>, garbage: bool) returns (r: Outcome<seq<byte>>, used: nat)
    ensures LoopEnd(r, used) == Frame(results, garbage)
  {
    var rb: seq<byte> := [];
    var firstTime := true;
    var i := 0;
    while i < |results|
      invariant i <= |results|
      invariant Frame(results, garbage) == Later(FrameFrom(results[i..], garbage, firstTime, rb), i)
    {
      assert results[i..][1..] == results[i + 1..];
      match results[i]
      case RecvError =>
        return Raised(RecvFailed), i + 1;
      case EndOfStream =>
        return Raised(PeerClosed), i + 1;
      case Data(buf) =>
        i := i + 1;
        if IsIdle(buf) {
          continue;
        }
        if firstTime && |buf| < ReadSize && (EndsWithNewline(buf) || garbage) {
          return Done(CStr(buf, Nul)), i;
        }
        firstTime := false;
        rb := rb + CStr(buf, Nul);
        if EndsWithNewline(buf) {
          return Done(rb), i;
        }
    }
    return Blocked, i;
  }

  // ---------------------------------------------------------------------
  // The reply in terms of the chunks alone.

  predicate AllData(results: seq<RecvResult>)
  {
    forall i :: 0 <= i < |results| ==> results[i].Data?
  }

  function Chunks(results: seq<RecvResult>): (cs: seq<Chunk>)
    requires AllData(results)
    ensures |cs| == |results|
  {
    if results == [] then [] else [results[0].chunk] + Chunks(results[1..])
  }

  /** The chunks the loop does not skip, in order. */
  function Substantive(cs: seq<Chunk>): (r: seq<Chunk>)
    ensures |r| <= |cs|
  {
    if cs == [] then []
    else if IsIdle(cs[0]) then Substantive(cs[1..])
    else [cs[0]] + Substantive(cs[1..])
  }

  /** The C-string views of `subs`, concatenated. */
  function Join(subs: seq<Chunk>): seq<byte>
  {
    if subs == [] then [] else Join(subs[..|subs| - 1]) + CStr(subs[|subs| - 1], Nul)
  }

  /** A reply is not yet complete after the substantive chunks `subs`:
      none of them ends in '\n', and the first did not take the fast path. */
  predicate Unfinished(subs: seq<Chunk>, garbage: bool)
  {
    subs == [] || (!FastPath(subs[0], garbage) && forall i :: 0 <= i < |subs| ==> !EndsWithNewline(subs[i]))
  }

  /** A reply is complete exactly at the last of `subs`: either it is the
      first and takes the fast path, or it ends in '\n' after chunks that
      left the reply unfinished. */
  predicate Finished(subs: seq<Chunk>, garbage: bool)
  {
    |subs| >= 1 &&
    if FastPath(subs[0], garbage) then |subs| == 1
    else EndsWithNewline(subs[|subs| - 1]) && Unfinished(subs[..|subs| - 1], garbage)
  }

  /** What the loop's outcome says about the recv() results it consumed,
      when it started having already taken the substantive chunks `done`. */
  ghost predicate Accounts(results: seq<RecvResult>, garbage: bool, done: seq<Chunk>, f: LoopEnd)
  {
    match f.outcome
    case Done(m) =>
      1 <= f.used <= |results| && AllData(results[..f.used]) && !IsIdle(results[f.used - 1].chunk) &&
      Finished(done + Substantive(Chunks(results[..f.used])), garbage) &&
      m == Join(done + Substantive(Chunks(results[..f.used])))
    case Raised(e) =>
      1 <= f.used <= |results| && AllData(results[..f.used - 1]) &&
      Unfinished(done + Substantive(Chunks(results[..f.used - 1])), garbage) &&
      ((results[f.used - 1] == RecvError && e == RecvFailed) ||
       (results[f.used - 1] == EndOfStream && e == PeerClosed))
    case Blocked =>
      f.used == |results| && AllData(results) && Unfinished(done + Substantive(Chunks(results)), garbage)
  }

  lemma {:induction false} JoinSnoc(subs: seq<Chunk>, c: Chunk)
    ensures Join(subs + [c]) == Join(subs) + CStr(c, Nul)
  {
    assert (subs + [c])[..|subs|] == subs;
  }

  /** Taking one more recv() result off the front: the substantive chunks
      of the longer prefix, after `done`, are those of the shorter one after
      `done'`. */
  lemma {:induction false} SubstantiveShift(results: seq<RecvResult>, k: nat, done: seq<Chunk>, done': seq<Chunk>)
    requires k + 1 <= |results| && results[0].Data? && AllData(results[1..][..k])
    requires done' == done + Substantive([results[0].chunk])
    ensures AllData(results[..k + 1])
    ensures done + Substantive(Chunks(results[..k + 1])) == done' + Substantive(Chunks(results[1..][..k]))
  {
    var c := results[0].chunk;
    var rest := Chunks(results[1..][..k]);
    ChunksFront(results, k);
    SubstantiveFront(c, rest);
  }

  /** The chunks of a prefix: its first chunk, then those of the rest. */
  lemma {:induction false} ChunksFront(results: seq<RecvResult>, k: nat)
    requires k + 1 <= |results| && results[0].Data? && AllData(results[1..][..k])
    ensures AllData(results[..k + 1])
    ensures Chunks(results[..k + 1]) == [results[0].chunk] + Chunks(results[1..][..k])
  {
    assert results[..k + 1] == [results[0]] + results[1..][..k];
    assert results[..k + 1][1..] == results[1..][..k];
  }

  /** `Substantive` of a chunk put in front. */
  lemma {:induction false} SubstantiveFront(c: Chunk, rest: seq<Chunk>)
    ensures Substantive([c] + rest) == Substantive([c]) + Substantive(rest)
  {
    assert ([c] + rest)[1..] == rest;
    assert [c][1..] == [];
  }

  /** One loop step that consumes a chunk and goes on: if the rest of the
      run is accounted for from `done'`, the whole run is from `done`. */
  lemma {:induction false} AccountsLater(results: seq<RecvResult>, garbage: bool, done: seq<Chunk>, done': seq<Chunk>, g: LoopEnd)
    requires |results| >= 1 && results[0].Data?
    requires done' == done + Substantive([results[0].chunk])
    requires Accounts(results[1..], garbage, done', g)
    ensures Accounts(results, garbage, done, Later(g, 1))
  {
    match g.outcome
    case Done(m) => AccountsLaterDone(results, garbage, done, done', g);
    case Raised(e) => AccountsLaterRaised(results, garbage, done, done', g);
    case Blocked => AccountsLaterBlocked(results, garbage, done, done', g);
  }

  lemma {:induction false} AccountsLaterDone(results: seq<RecvResult>, garbage: bool, done: seq<Chunk>, done': seq<Chunk>, g: LoopEnd)
    requires |results| >= 1 && results[0].Data? && g.outcome.Done?
    requires done' == done + Substantive([results[0].chunk])
    requires Accounts(results[1..], garbage, done', g)
    ensures Accounts(results, garbage, done, Later(g, 1))
  {
    var tail := results[1..];
    SubstantiveShift(results, g.used, done, done');
    assert results[g.used] == tail[g.used - 1];
  }

  lemma {:induction false} AccountsLaterRaised(results: seq<RecvResult>, garbage: bool, done: seq<Chunk>, done': seq<Chunk>, g: LoopEnd)
    requires |results| >= 1 && results[0].Data? && g.outcome.Raised?
    requires done' == done + Substantive([results[0].chunk])
    requires Accounts(results[1..], garbage, done', g)
    ensures Accounts(results, garbage, done, Later(g, 1))
  {
    var tail := results[1..];
    SubstantiveShift(results, g.used - 1, done, done');
    assert results[g.used] == tail[g.used - 1];
  }

  lemma {:induction false} AccountsLaterBlocked(results: seq<RecvResult>, garbage: bool, done: seq<Chunk>, done': seq<Chunk>, g: LoopEnd)
    requires |results| >= 1 && results[0].Data? && g.outcome.Blocked?
    requires done' == done + Substantive([results[0].chunk])
    requires Accounts(results[1..], garbage, done', g)
    ensures Accounts(results, garbage, done, Later(g, 1))
  {
    var tail := results[1..];
    assert tail[..|tail|] == tail && results[..|results|] == results;
    SubstantiveShift(results, |tail|, done, done');
  }

  /** Soundness of the loop, generalised over the state it starts from:
      `firstTime` holds while no substantive chunk was taken, and `rb` is
      the join of the ones that were. */
  lemma {:induction false} FrameFromAccounts(results: seq<RecvResult>, garbage: bool, done: seq<Chunk>)
    requires Unfinished(done, garbage)
    ensures Accounts(results, garbage, done, FrameFrom(results, garbage, done == [], Join(done)))
    decreases |results|
  {
    if results == [] || !results[0].Data? {
      AccountsStop(results, garbage, done);
    } else {
      var c := results[0].chunk;
      if IsIdle(c) {
        FrameFromAccounts(results[1..], garbage, done);
        AccountsSkip(results, garbage, done);
      } else if (done == [] && FastPath(c, garbage)) || EndsWithNewline(c) {
        AccountsAtFirst(results, garbage, done);
      } else {
        UnfinishedSnoc(done, c, garbage);
        FrameFromAccounts(results[1..], garbage, done + [c]);
        AccountsTake(results, garbage, done);
      }
    }
  }

  /** The step of `FrameFromAccounts` where the first result is no
      chunk, or there is none. */
  lemma {:induction false} AccountsStop(results: seq<RecvResult>, garbage: bool, done: seq<Chunk>)
    requires Unfinished(done, garbage)
    requires results == [] || !results[0].Data?
    ensures Accounts(results, garbage, done, FrameFrom(results, garbage, done == [], Join(done)))
  {
    assert results[..0] == [];
    assert done + Substantive(Chunks(results[..0])) == done;
    if results == [] {
      assert done + Substantive(Chunks(results)) == done;
    }
  }

  /** The step of `FrameFromAccounts` that skips an idle byte. */
  lemma {:induction false} AccountsSkip(results: seq<RecvResult>, garbage: bool, done: seq<Chunk>)
    requires |results| >= 1 && results[0].Data? && IsIdle(results[0].chunk)
    requires Accounts(results[1..], garbage, done, FrameFrom(results[1..], garbage, done == [], Join(done)))
    ensures Accounts(results, garbage, done, FrameFrom(results, garbage, done == [], Join(done)))
  {
    AccountsLater(results, garbage, done, done, FrameFrom(results[1..], garbage, done == [], Join(done)));
  }

  /** The step of `FrameFromAccounts` that takes a chunk into the reply
      and goes on. */
  lemma {:induction false} AccountsTake(results: seq<RecvResult>, garbage: bool, done: seq<Chunk>)
    requires Unfinished(done, garbage)
    requires |results| >= 1 && results[0].Data? && !IsIdle(results[0].chunk)
    requires !(done == [] && FastPath(results[0].chunk, garbage)) && !EndsWithNewline(results[0].chunk)
    requires var done' := done + [results[0].chunk];
      Accounts(results[1..], garbage, done', FrameFrom(results[1..], garbage, done' == [], Join(done')))
    ensures Accounts(results, garbage, done, FrameFrom(results, garbage, done == [], Join(done)))
  {
    var c := results[0].chunk;
    var done' := done + [c];
    JoinSnoc(done, c);
    assert Substantive([c]) == [c];
    AccountsLater(results, garbage, done, done', FrameFrom(results[1..], garbage, false, Join(done')));
  }

  /** `Unfinished` survives a chunk that neither takes the fast path nor
      ends in a newline. */
  lemma {:induction false} UnfinishedSnoc(done: seq<Chunk>, c: Chunk, garbage: bool)
    requires Unfinished(done, garbage)
    requires !(done == [] && FastPath(c, garbage)) && !EndsWithNewline(c)
    ensures Unfinished(done + [c], garbage)
  {
    assert (done + [c])[0] == (if done == [] then c else done[0]);
  }

  /** The step of `FrameFromAccounts` where the first result ends the
      reply. */
  lemma {:induction false} AccountsAtFirst(results: seq<RecvResult>, garbage: bool, done: seq<Chunk>)
    requires Unfinished(done, garbage)
    requires |results| >= 1 && results[0].Data? && !IsIdle(results[0].chunk)
    requires (done == [] && FastPath(results[0].chunk, garbage)) || EndsWithNewline(results[0].chunk)
    ensures Accounts(results, garbage, done, FrameFrom(results, garbage, done == [], Join(done)))
  {
    var c := results[0].chunk;
    assert results[..1] == [results[0]];
    assert Chunks(results[..1]) == [c];
    assert Substantive([c]) == [c];
    FinishedAtEnd(done, c, garbage);
    EndStep(results, garbage, done);
  }

  /** A chunk that can end the reply finishes it. */
  lemma {:induction false} FinishedAtEnd(done: seq<Chunk>, c: Chunk, garbage: bool)
    requires Unfinished(done, garbage)
    requires (done == [] && FastPath(c, garbage)) || EndsWithNewline(c)
    ensures Finished(done + [c], garbage)
  {
    var subs := done + [c];
    assert subs[|subs| - 1] == c;
    if done == [] {
      assert subs == [c];
    } else {
      assert subs[0] == done[0];
      assert subs[..|subs| - 1] == done;
    }
  }

  lemma {:induction false} SubstantiveCons(pre: seq<RecvResult>, rest: seq<RecvResult>)
    requires AllData(pre) && |pre| >= 1
    ensures Substantive(Chunks(pre)) == Substantive([pre[0].chunk]) + Substantive(Chunks(pre[1..]))
    ensures (pre + rest)[0] == pre[0] && (pre + rest)[1..] == pre[1..] + rest
  {
    var c := pre[0].chunk;
    var x := Chunks(pre[1..]);
    assert ([c] + x)[1..] == x;
  }

  /** A prefix that ends in a substantive chunk has a substantive chunk. */
  lemma {:induction false} SubstantiveNonEmpty(pre: seq<RecvResult>)
    requires AllData(pre) && |pre| >= 1 && !IsIdle(pre[|pre| - 1].chunk)
    ensures |Substantive(Chunks(pre))| >= 1
  {
    SubstantiveCons(pre, []);
    if |pre| > 1 {
      SubstantiveNonEmpty(pre[1..]);
    }
  }

  /** A finished reply ends at the only chunk that could end it: the
      first one, on the fast path, or one ending in '\n'. */
  lemma {:induction false} FinishedOnlyAtEnd(subs: seq<Chunk>, garbage: bool, k: nat)
    requires Finished(subs, garbage) && k < |subs|
    requires (k == 0 && FastPath(subs[0], garbage)) || EndsWithNewline(subs[k])
    ensures k == |subs| - 1
  {
    assert forall j :: 0 <= j < |subs| - 1 ==> subs[..|subs| - 1][j] == subs[j];
  }

  /** Completeness of the loop, generalised over its state: once the
      substantive chunks finish a reply at the last result of `pre`, the
      loop returns their join there, whatever follows. */
  lemma {:induction false} FrameFromFinishes(pre: seq<RecvResult>, rest: seq<RecvResult>, garbage: bool, done: seq<Chunk>)
    requires AllData(pre) && |pre| >= 1 && !IsIdle(pre[|pre| - 1].chunk)
    requires Unfinished(done, garbage)
    requires Finished(done + Substantive(Chunks(pre)), garbage)
    ensures FrameFrom(pre + rest, garbage, done == [], Join(done))
         == LoopEnd(Done(Join(done + Substantive(Chunks(pre)))), |pre|)
    decreases |pre|
  {
    var c := pre[0].chunk;
    SubstantiveCons(pre, rest);
    if IsIdle(c) {
      FinishesIdle(pre, rest, garbage, done);
    } else if (done == [] && FastPath(c, garbage)) || EndsWithNewline(c) {
      FinishesAtFirst(pre, rest, garbage, done);
    } else {
      FinishesLater(pre, rest, garbage, done);
    }
  }

  /** The step of `FrameFromFinishes` that skips an idle byte. */
  lemma {:induction false} FinishesIdle(pre: seq<RecvResult>, rest: seq<RecvResult>, garbage: bool, done: seq<Chunk>)
    requires AllData(pre) && |pre| >= 1 && !IsIdle(pre[|pre| - 1].chunk)
    requires Unfinished(done, garbage)
    requires Finished(done + Substantive(Chunks(pre)), garbage)
    requires IsIdle(pre[0].chunk)
    requires Substantive(Chunks(pre)) == Substantive([pre[0].chunk]) + Substantive(Chunks(pre[1..]))
    requires (pre + rest)[0] == pre[0] && (pre + rest)[1..] == pre[1..] + rest
    ensures FrameFrom(pre + rest, garbage, done == [], Join(done))
         == LoopEnd(Done(Join(done + Substantive(Chunks(pre)))), |pre|)
    decreases |pre|, 0
  {
    assert Substantive(Chunks(pre)) == Substantive(Chunks(pre[1..]));
    FrameFromFinishes(pre[1..], rest, garbage, done);
  }

  /** The step of `FrameFromFinishes` where the first result of `pre`
      ends the reply: it is then the only one. */
  lemma {:induction false} FinishesAtFirst(pre: seq<RecvResult>, rest: seq<RecvResult>, garbage: bool, done: seq<Chunk>)
    requires AllData(pre) && |pre| >= 1 && !IsIdle(pre[|pre| - 1].chunk)
    requires Unfinished(done, garbage)
    requires Finished(done + Substantive(Chunks(pre)), garbage)
    requires !IsIdle(pre[0].chunk)
    requires (done == [] && FastPath(pre[0].chunk, garbage)) || EndsWithNewline(pre[0].chunk)
    requires Substantive(Chunks(pre)) == [pre[0].chunk] + Substantive(Chunks(pre[1..]))
    ensures |pre| == 1
    ensures FrameFrom(pre + rest, garbage, done == [], Join(done))
         == LoopEnd(Done(Join(done + Substantive(Chunks(pre)))), |pre|)
  {
    var c := pre[0].chunk;
    var s1 := Substantive(Chunks(pre[1..]));
    assert done + Substantive(Chunks(pre)) == done + [c] + s1;
    FinishedAtFirstChunk(done, c, s1, garbage);
    if |pre| > 1 {
      SubstantiveNonEmpty(pre[1..]);
    }
    assert done + [c] + s1 == done + [c];
    EndStep(pre + rest, garbage, done);
  }

  /** A chunk that ends the reply is the last substantive one. */
  lemma {:induction false} FinishedAtFirstChunk(done: seq<Chunk>, c: Chunk, s1: seq<Chunk>, garbage: bool)
    requires Unfinished(done, garbage)
    requires Finished(done + [c] + s1, garbage)
    requires (done == [] && FastPath(c, garbage)) || EndsWithNewline(c)
    ensures s1 == []
  {
    var subs := done + [c] + s1;
    assert subs[|done|] == c;
    assert subs[0] == (if done == [] then c else done[0]);
    FinishedOnlyAtEnd(subs, garbage, |done|);
  }

  /** One step of the loop that ends the call with a reply: the fast path
      returns the chunk alone, a newline returns it joined to `rb`. */
  lemma {:induction false} EndStep(results: seq<RecvResult>, garbage: bool, done: seq<Chunk>)
    requires Unfinished(done, garbage)
    requires |results| >= 1 && results[0].Data? && !IsIdle(results[0].chunk)
    requires (done == [] && FastPath(results[0].chunk, garbage)) || EndsWithNewline(results[0].chunk)
    ensures FrameFrom(results, garbage, done == [], Join(done))
         == LoopEnd(Done(Join(done + [results[0].chunk])), 1)
  {
    var c := results[0].chunk;
    JoinSnoc(done, c);
    if done == [] {
      assert done + [c] == [c];
      assert Join(done) + CStr(c, Nul) == CStr(c, Nul);
    }
  }

  /** The step of `FrameFromFinishes` where the first result of `pre` is
      taken into the reply and the loop goes on. */
  lemma {:induction false} FinishesLater(pre: seq<RecvResult>, rest: seq<RecvResult>, garbage: bool, done: seq<Chunk>)
    requires AllData(pre) && |pre| >= 1 && !IsIdle(pre[|pre| - 1].chunk)
    requires Unfinished(done, garbage)
    requires Finished(done + Substantive(Chunks(pre)), garbage)
    requires !IsIdle(pre[0].chunk)
    requires !(done == [] && FastPath(pre[0].chunk, garbage)) && !EndsWithNewline(pre[0].chunk)
    requires Substantive(Chunks(pre)) == [pre[0].chunk] + Substantive(Chunks(pre[1..]))
    requires (pre + rest)[0] == pre[0] && (pre + rest)[1..] == pre[1..] + rest
    ensures FrameFrom(pre + rest, garbage, done == [], Join(done))
         == LoopEnd(Done(Join(done + Substantive(Chunks(pre)))), |pre|)
    decreases |pre|, 0
  {
    var c := pre[0].chunk;
    var s1 := Substantive(Chunks(pre[1..]));
    assert done + Substantive(Chunks(pre)) == done + [c] + s1;
    FinishedTail(done, c, s1, garbage);
    TakeStep(pre + rest, garbage, done);
    FrameFromFinishes(pre[1..], rest, garbage, done + [c]);
  }

  /** One step of the loop that takes a chunk into the reply and goes on
      with `first_time` cleared. */
  lemma {:induction false} TakeStep(results: seq<RecvResult>, garbage: bool, done: seq<Chunk>)
    requires |results| >= 1 && results[0].Data? && !IsIdle(results[0].chunk)
    requires !(done == [] && FastPath(results[0].chunk, garbage)) && !EndsWithNewline(results[0].chunk)
    ensures done + [results[0].chunk] != []
    ensures FrameFrom(results, garbage, done == [], Join(done))
         == Later(FrameFrom(results[1..], garbage, false, Join(done + [results[0].chunk])), 1)
  {
    JoinSnoc(done, results[0].chunk);
  }

  /** A prefix of an unfinished reply is unfinished. */
  lemma {:induction false} UnfinishedPrefix(a: seq<Chunk>, b: seq<Chunk>, garbage: bool)
    requires Unfinished(a + b, garbage)
    ensures Unfinished(a, garbage)
  {
    if a != [] {
      assert (a + b)[0] == a[0];
      forall i | 0 <= i < |a|
        ensures !EndsWithNewline(a[i])
      {
        assert (a + b)[i] == a[i];
      }
    }
  }

  /** A chunk that cannot end the reply leaves it unfinished, and more
      chunks must follow it to finish it. */
  lemma {:induction false} FinishedTail(done: seq<Chunk>, c: Chunk, s1: seq<Chunk>, garbage: bool)
    requires Unfinished(done, garbage)
    requires !(done == [] && FastPath(c, garbage)) && !EndsWithNewline(c)
    requires Finished(done + [c] + s1, garbage)
    ensures s1 != [] && Unfinished(done + [c], garbage)
  {
    var subs := done + [c] + s1;
    assert subs[0] == (if done == [] then c else done[0]);
    assert subs[|done|] == c;
    assert subs[..|subs| - 1] == done + [c] + s1[..|s1| - 1];
    UnfinishedPrefix(done + [c], s1[..|s1| - 1], garbage);
  }

  /** A prefix whose substantive chunks leave the reply unfinished is read
      through: the loop carries on after it in the state it reached. */
  lemma {:induction false} FrameFromPassesOver(pre: seq<RecvResult>, rest: seq<RecvResult>, garbage: bool, done: seq<Chunk>)
    requires AllData(pre) && Unfinished(done, garbage)
    requires Unfinished(done + Substantive(Chunks(pre)), garbage)
    ensures var after := done + Substantive(Chunks(pre));
      FrameFrom(pre + rest, garbage, done == [], Join(done))
        == Later(FrameFrom(rest, garbage, after == [], Join(after)), |pre|)
    decreases |pre|, 1
  {
    if pre == [] {
      assert pre + rest == rest;
      assert done + Substantive(Chunks(pre)) == done;
    } else {
      SubstantiveCons(pre, rest);
      if IsIdle(pre[0].chunk) {
        PassesOverIdle(pre, rest, garbage, done);
      } else {
        PassesOverTake(pre, rest, garbage, done);
      }
    }
  }

  /** The step of `FrameFromPassesOver` that skips an idle byte. */
  lemma {:induction false} PassesOverIdle(pre: seq<RecvResult>, rest: seq<RecvResult>, garbage: bool, done: seq<Chunk>)
    requires AllData(pre) && |pre| >= 1 && IsIdle(pre[0].chunk) && Unfinished(done, garbage)
    requires Unfinished(done + Substantive(Chunks(pre)), garbage)
    requires Substantive(Chunks(pre)) == Substantive([pre[0].chunk]) + Substantive(Chunks(pre[1..]))
    requires (pre + rest)[0] == pre[0] && (pre + rest)[1..] == pre[1..] + rest
    ensures var after := done + Substantive(Chunks(pre));
      FrameFrom(pre + rest, garbage, done == [], Join(done))
        == Later(FrameFrom(rest, garbage, after == [], Join(after)), |pre|)
    decreases |pre|, 0
  {
    assert Substantive(Chunks(pre)) == Substantive(Chunks(pre[1..]));
    FrameFromPassesOver(pre[1..], rest, garbage, done);
  }

  /** The step of `FrameFromPassesOver` that takes a chunk into the
      reply. */
  lemma {:induction false} PassesOverTake(pre: seq<RecvResult>, rest: seq<RecvResult>, garbage: bool, done: seq<Chunk>)
    requires AllData(pre) && |pre| >= 1 && !IsIdle(pre[0].chunk) && Unfinished(done, garbage)
    requires Unfinished(done + Substantive(Chunks(pre)), garbage)
    requires Substantive(Chunks(pre)) == Substantive([pre[0].chunk]) + Substantive(Chunks(pre[1..]))
    requires (pre + rest)[0] == pre[0] && (pre + rest)[1..] == pre[1..] + rest
    ensures var after := done + Substantive(Chunks(pre));
      FrameFrom(pre + rest, garbage, done == [], Join(done))
        == Later(FrameFrom(rest, garbage, after == [], Join(after)), |pre|)
    decreases |pre|, 0
  {
    var c := pre[0].chunk;
    var s1 := Substantive(Chunks(pre[1..]));
    assert Substantive([c]) == [c];
    assert done + Substantive(Chunks(pre)) == done + [c] + s1;
    UnfinishedPrefix(done + [c], s1, garbage);
    UnfinishedCannotEnd(done, c, garbage);
    TakeStep(pre + rest, garbage, done);
    FrameFromPassesOver(pre[1..], rest, garbage, done + [c]);
  }

  /** A chunk that leaves the reply unfinished neither took the fast path
      nor ended in '\n'. */
  lemma {:induction false} UnfinishedCannotEnd(done: seq<Chunk>, c: Chunk, garbage: bool)
    requires Unfinished(done + [c], garbage)
    ensures !(done == [] && FastPath(c, garbage)) && !EndsWithNewline(c)
  {
    assert (done + [c])[|done|] == c;
    assert (done + [c])[0] == (if done == [] then c else done[0]);
  }

  // ---------------------------------------------------------------------
  // The loop from its initial state.

  /** Whatever `do_recv`'s loop does is accounted for by the results it
      consumed: a reply is the join of the substantive chunks read, which
      finish it at the last result consumed; an error or a zero read ends
      the call at that result, with the reply still unfinished; and a call
      still blocked has read everything without finishing a reply. */
  lemma {:induction false} FrameIsAccounted(results: seq<RecvResult>, garbage: bool)
    ensures Accounts(results, garbage, [], Frame(results, garbage))
  {
    FrameFromAccounts(results, garbage, []);
  }

  /** Conversely, results whose substantive chunks finish a reply at the
      last of them make the loop return exactly that reply, there. */
  lemma {:induction false} FrameRepliesWhenFinished(pre: seq<RecvResult>, rest: seq<RecvResult>, garbage: bool)
    requires AllData(pre) && |pre| >= 1 && !IsIdle(pre[|pre| - 1].chunk)
    requires Finished(Substantive(Chunks(pre)), garbage)
    ensures Frame(pre + rest, garbage) == LoopEnd(Done(Join(Substantive(Chunks(pre)))), |pre|)
  {
    FrameFromFinishes(pre, rest, garbage, []);
    assert [] + Substantive(Chunks(pre)) == Substantive(Chunks(pre));
  }

  /** Conversely, results whose substantive chunks leave the reply
      unfinished are read through: the call ends at the next error or zero
      read, and blocks if there is none. */
  lemma {:induction false} FrameStopsAtFailure(pre: seq<RecvResult>, rest: seq<RecvResult>, garbage: bool)
    requires AllData(pre) && Unfinished(Substantive(Chunks(pre)), garbage)
    ensures Frame(pre, garbage) == LoopEnd(Blocked, |pre|)
    ensures Frame(pre + [RecvError] + rest, garbage) == LoopEnd(Raised(RecvFailed), |pre| + 1)
    ensures Frame(pre + [EndOfStream] + rest, garbage) == LoopEnd(Raised(PeerClosed), |pre| + 1)
  {
    var after := Substantive(Chunks(pre));
    assert [] + after == after;
    FrameFromPassesOver(pre, [], garbage, []);
    assert pre + [] == pre;
    FrameFromPassesOver(pre, [RecvError] + rest, garbage, []);
    assert pre + [RecvError] + rest == pre + ([RecvError] + rest);
    FrameFromPassesOver(pre, [EndOfStream] + rest, garbage, []);
    assert pre + [EndOfStream] + rest == pre + ([EndOfStream] + rest);
  }

  /** The loop never reads past the end of a reply or a failure: once the
      results seen so far decide the call, later ones change nothing. */
  lemma {:induction false} FrameDecidedByPrefix(pre: seq<RecvResult>, rest: seq<RecvResult>, garbage: bool)
    requires !Frame(pre, garbage).outcome.Blocked?
    ensures Frame(pre + rest, garbage) == Frame(pre, garbage)
  {
    var f := Frame(pre, garbage);
    FrameIsAccounted(pre, garbage);
    if f.outcome.Done? {
      assert [] + Substantive(Chunks(pre[..f.used])) == Substantive(Chunks(pre[..f.used]));
      DecidedByReply(pre, rest, garbage, f.used);
    } else {
      DecidedByFailure(pre, rest, garbage, f.used);
    }
  }

  lemma {:induction false} DecidedByReply(pre: seq<RecvResult>, rest: seq<RecvResult>, garbage: bool, k: nat)
    requires 1 <= k <= |pre| && AllData(pre[..k]) && !IsIdle(pre[k - 1].chunk)
    requires Finished(Substantive(Chunks(pre[..k])), garbage)
    ensures Frame(pre + rest, garbage) == Frame(pre, garbage)
  {
    SplitAt(pre, rest, k);
    FrameRepliesWhenFinished(pre[..k], pre[k..], garbage);
    FrameRepliesWhenFinished(pre[..k], pre[k..] + rest, garbage);
  }

  /** Cutting `pre` at `k`, with `rest` after it. */
  lemma {:induction false} SplitAt<T>(pre: seq<T>, rest: seq<T>, k: nat)
    requires k <= |pre|
    ensures pre == pre[..k] + pre[k..]
    ensures pre + rest == pre[..k] + (pre[k..] + rest)
  {
    assert pre == pre[..k] + pre[k..];
  }

  lemma {:induction false} DecidedByFailure(pre: seq<RecvResult>, rest: seq<RecvResult>, garbage: bool, k: nat)
    requires 1 <= k <= |pre| && AllData(pre[..k - 1])
    requires Unfinished([] + Substantive(Chunks(pre[..k - 1])), garbage)
    requires pre[k - 1] == RecvError || pre[k - 1] == EndOfStream
    requires Frame(pre, garbage).used == k && Frame(pre, garbage).outcome.Raised?
    ensures Frame(pre + rest, garbage) == Frame(pre, garbage)
  {
    var front := pre[..k - 1];
    assert [] + Substantive(Chunks(front)) == Substantive(Chunks(front));
    assert pre == front + [pre[k - 1]] + pre[k..];
    assert pre + rest == front + [pre[k - 1]] + (pre[k..] + rest);
    FrameStopsAtFailure(front, pre[k..], garbage);
    FrameStopsAtFailure(front, pre[k..] + rest, garbage);
  }

  /** `n` solitary idle bytes. */
  function Idles(n: nat): (r: seq<RecvResult>)
    ensures |r| == n
  {
    seq(n, _ => Data([Idle]))
  }

  /** Solitary idle bytes change nothing: neither the reply nor
      `first_time`, whatever state the loop is in; they only use up
      results. */
  lemma {:induction false} IdlesAreSkipped(n: nat, results: seq<RecvResult>, garbage: bool, firstTime: bool, rb: seq<byte>)
    ensures FrameFrom(Idles(n) + results, garbage, firstTime, rb)
         == Later(FrameFrom(results, garbage, firstTime, rb), n)
  {
    if n > 0 {
      assert (Idles(n) + results)[0] == Data([Idle]);
      assert (Idles(n) + results)[1..] == Idles(n - 1) + results;
      IdlesAreSkipped(n - 1, results, garbage, firstTime, rb);
    } else {
      assert Idles(n) + results == results;
    }
  }

  /** The fast path survives idle bytes: after any number of them, a
      first substantive chunk that takes the fast path is the reply. */
  lemma {:induction false} FastPathAfterIdles(n: nat, c: Chunk, rest: seq<RecvResult>, garbage: bool)
    requires !IsIdle(c) && FastPath(c, garbage)
    ensures Frame(Idles(n) + [Data(c)] + rest, garbage) == LoopEnd(Done(CStr(c, Nul)), n + 1)
  {
    IdlesAreSkipped(n, [Data(c)] + rest, garbage, true, []);
    assert Idles(n) + [Data(c)] + rest == Idles(n) + ([Data(c)] + rest);
  }

  /** Without `garbage`, a short first chunk that does not end in '\n'
      does not end the call: it starts the reply and reading goes on. */
  lemma {:induction false} ShortUnterminatedReadGoesOn(c: Chunk, rest: seq<RecvResult>)
    requires !IsIdle(c) && !EndsWithNewline(c)
    ensures Frame([Data(c)] + rest, false) == Later(FrameFrom(rest, false, false, CStr(c, Nul)), 1)
    ensures Frame([Data(c)], false) == LoopEnd(Blocked, 1)
  {
    assert ([Data(c)] + rest)[1..] == rest;
    assert [] + CStr(c, Nul) == CStr(c, Nul);
  }

  /** A reply larger than one read: a full unterminated buffer followed by
      a newline-terminated chunk comes back as the two joined. */
  lemma {:induction false} ReplySpanningTwoReads(c1: Chunk, c2: Chunk, rest: seq<RecvResult>, garbage: bool)
    requires |c1| == ReadSize && !EndsWithNewline(c1)
    requires !IsIdle(c2) && EndsWithNewline(c2)
    ensures Frame([Data(c1), Data(c2)] + rest, garbage)
         == LoopEnd(Done(CStr(c1, Nul) + CStr(c2, Nul)), 2)
  {
    var results := [Data(c1), Data(c2)] + rest;
    assert results[0] == Data(c1) && !IsIdle(c1) && !FastPath(c1, garbage);
    assert results[1..] == [Data(c2)] + rest && results[1..][0] == Data(c2);
    assert [] + CStr(c1, Nul) == CStr(c1, Nul);
    assert FrameFrom(results[1..], garbage, false, CStr(c1, Nul)) == LoopEnd(Done(CStr(c1, Nul) + CStr(c2, Nul)), 1);
  }

  /** Only the single byte 0x16 is skipped: a longer chunk that starts
      with it is content, taken like any other chunk in whatever state the
      loop is in. */
  lemma {:induction false} LongerIdleChunkIsContent(c: Chunk, rest: seq<RecvResult>, garbage: bool, firstTime: bool, rb: seq<byte>)
    requires |c| >= 2 && c[0] == Idle
    ensures FrameFrom([Data(c)] + rest, garbage, firstTime, rb)
         == if firstTime && FastPath(c, garbage) then LoopEnd(Done(CStr(c, Nul)), 1)
            else if EndsWithNewline(c) then LoopEnd(Done(rb + CStr(c, Nul)), 1)
            else Later(FrameFrom(rest, garbage, false, rb + CStr(c, Nul)), 1)
  {
    assert ([Data(c)] + rest)[1..] == rest;
  }
}
