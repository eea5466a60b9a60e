/** How an access to a remote device ends, told from what happens to its transfers one by one. */
module Transfers {

  datatype Error = Timeout | Sigbus | OtherError

  datatype Outcome = Done | Failed(error: Error)

  /** What happens to one transfer: it works, or it aborts after some of its own bytes. */
  datatype Fault = Works | Aborts(error: Error, reached: set<nat>)

  /** How an access has ended, and what will happen to the transfers after it. */
  datatype End = End(outcome: Outcome, rest: seq<Fault>)

  predicate Shrinks(end: End, fs: seq<Fault>) {
    |end.rest| <= |fs| && (end.outcome.Failed? ==> |end.rest| < |fs|)
  }

  /** Transfers in a row, up to the first one that aborts. Those beyond `fs` work. */
  function Attempt(fs: seq<Fault>, n: nat): (r: End)
    ensures Shrinks(r, fs)
    decreases n
  {
    if n == 0 || fs == [] then End(Done, fs)
    else
      match fs[0]
      case Works => Attempt(fs[1..], n - 1)
      case Aborts(error, _) => End(Failed(error), fs[1..])
  }

  /** The transfers of a read: one for the word around an unaligned start, one for the whole words, one
      for the word around the rest. A write reads the two words at its ends before it writes them. */
  function Head(a: nat, size: nat): (r: nat)
    ensures r <= size
  {
    if a % 4 == 0 then 0 else if a % 4 + size <= 4 then size else 4 - a % 4
  }

  function TransfersToRead(a: nat, size: nat): nat {
    (if a % 4 != 0 then 1 else 0) + ReadsLeft(size - Head(a, size))
  }

  function ReadsLeft(left: nat): nat {
    (if left >= 4 then 1 else 0) + (if left % 4 != 0 then 1 else 0)
  }

  function TransfersToWrite(a: nat, size: nat): nat {
    (if a % 4 != 0 then 2 else 0) + WritesLeft(size - Head(a, size))
  }

  function WritesLeft(left: nat): nat {
    (if left >= 4 then 1 else 0) + (if left % 4 != 0 then 2 else 0)
  }

  /** The same by the words touched: one transfer for all words that lie in the range, and for each word
      that the range only enters or leaves, one to read it and one more to write it. */
  lemma TransfersByWords(a: nat, size: nat)
    ensures var next, last := (a + 3) / 4 * 4, (a + size) / 4 * 4;
            var enters, leaves := a < next, last < a + size;
            if enters && a + size <= next then TransfersToRead(a, size) == 1 && TransfersToWrite(a, size) == 2
            else
              var whole, cut := if next < last then 1 else 0, (if enters then 1 else 0) + if leaves then 1 else 0;
              TransfersToRead(a, size) == whole + cut && TransfersToWrite(a, size) == whole + 2 * cut
  {
    var q, f := a / 4, a % 4;
    assert a == 4 * q + f;
    assert (a + 3) / 4 == if f == 0 then q else q + 1;
    var left := size - Head(a, size);
    if f == 0 {
      WordsAhead(q, left);
    } else if f + size > 4 {
      WordsAhead(q + 1, left);
    }
  }

  /** From a word boundary on. */
  lemma WordsAhead(q: nat, left: nat)
    ensures (4 * q + left) / 4 * 4 == 4 * q + left / 4 * 4
    ensures left >= 4 <==> 4 * q < (4 * q + left) / 4 * 4
    ensures left % 4 != 0 <==> (4 * q + left) / 4 * 4 < 4 * q + left
  {
    assert (4 * q + left) / 4 == q + left / 4;
  }

  lemma {:induction false} AttemptInTurn(fs: seq<Fault>, m: nat, n: nat)
    ensures var first := Attempt(fs, m);
            Attempt(fs, m + n) == if first.outcome.Done? then Attempt(first.rest, n) else first
    decreases m
  {
    if m > 0 && fs != [] && fs[0].Works? {
      AttemptInTurn(fs[1..], m - 1, n);
    }
  }

  /** Whether one of the ethernet cores answers, asked one after the other. */
  function Reconfigured(fs: seq<Fault>, ethCores: nat): (r: End)
    ensures Shrinks(r, fs) || ethCores == 0
    ensures |r.rest| <= |fs| && (r.outcome.Failed? ==> r.outcome.error == OtherError)
    decreases ethCores
  {
    if ethCores == 0 then End(Failed(OtherError), fs)
    else if fs == [] then End(Done, fs)
    else if fs[0].Works? then End(Done, fs[1..])
    else Reconfigured(fs[1..], ethCores - 1)
  }

  /** Which device: `remote` is true if it is neither simulated nor reached over its own bus. */
  datatype Way = Way(remote: bool, ethCores: nat)

  /** An access of n transfers that is repeated once over another ethernet core. */
  function Retried(fs: seq<Fault>, n: nat, way: Way): (r: End)
    ensures Shrinks(r, fs)
  {
    var first := Attempt(fs, n);
    if first.outcome.Done? || first.outcome.error == Timeout || !way.remote then first
    else
      var eth := Reconfigured(first.rest, way.ethCores);
      if eth.outcome.Failed? then eth else Attempt(eth.rest, n)
  }

  /** An access that starts over whenever it ends with a bus error. */
  function Restarted(fs: seq<Fault>, n: nat, way: Way): (r: End)
    ensures Shrinks(r, fs) && r.outcome != Failed(Sigbus)
    decreases |fs|
  {
    var r := Retried(fs, n, way);
    if r.outcome == Failed(Sigbus) then Restarted(r.rest, n, way) else r
  }

  /** An access over one NOC after the other, as long as they time out, `nocs` at most; and how many
      were tried. */
  function OverNocs(fs: seq<Fault>, n: nat, way: Way, nocs: nat): (r: (End, nat))
    requires nocs > 0
    ensures 0 < r.1 <= nocs
    decreases nocs
  {
    var r := Restarted(fs, n, way);
    if r.outcome == Failed(Timeout) && nocs > 1 then
      var (end, tried) := OverNocs(r.rest, n, way, nocs - 1);
      (end, tried + 1)
    else (r, 1)
  }

  // ----- What that means

  ghost predicate AllWork(fs: seq<Fault>) {
    forall i :: 0 <= i < |fs| ==> fs[i].Works?
  }

  ghost predicate NoneWorks(fs: seq<Fault>) {
    forall i :: 0 <= i < |fs| ==> fs[i].Aborts?
  }

  lemma {:induction false} AttemptWorks(fs: seq<Fault>, n: nat)
    requires AllWork(if n <= |fs| then fs[..n] else fs)
    ensures Attempt(fs, n) == End(Done, if n <= |fs| then fs[n..] else [])
    decreases n
  {
    if n > 0 && fs != [] {
      var m := if n <= |fs| then n else |fs|;
      assert fs[0] == fs[..m][0] && fs[1..][..m - 1] == fs[..m][1..];
      if n <= |fs| {
        assert fs[1..][n - 1..] == fs[n..];
      } else {
        assert fs[..|fs|] == fs && fs[1..][..|fs| - 1] == fs[1..];
      }
      AttemptWorks(fs[1..], n - 1);
    } else if fs == [] {
      assert n <= |fs| ==> fs[n..] == [];
    } else {
      assert fs[0..] == fs;
    }
  }

  /** The first transfer that aborts decides, if it is one of the n. */
  lemma {:induction false} AttemptAborts(works: seq<Fault>, error: Error, reached: set<nat>, later: seq<Fault>, n: nat)
    requires AllWork(works) && |works| < n
    ensures Attempt(works + [Aborts(error, reached)] + later, n) == End(Failed(error), later)
    decreases n
  {
    var fs := works + [Aborts(error, reached)] + later;
    if works == [] {
      assert fs[0] == Aborts(error, reached) && fs[1..] == later;
    } else {
      assert fs[0] == works[0] && fs[1..] == works[1..] + [Aborts(error, reached)] + later;
      AttemptAborts(works[1..], error, reached, later, n - 1);
    }
  }

  lemma {:induction false} SomeCoreAnswers(busy: seq<Fault>, later: seq<Fault>, ethCores: nat)
    requires NoneWorks(busy) && |busy| < ethCores
    ensures Reconfigured(busy + [Works] + later, ethCores) == End(Done, later)
    decreases |busy|
  {
    var fs := busy + [Works] + later;
    if busy == [] {
      assert fs[0] == Works && fs[1..] == later;
    } else {
      assert fs[0] == busy[0] && fs[1..] == busy[1..] + [Works] + later;
      SomeCoreAnswers(busy[1..], later, ethCores - 1);
    }
  }

  lemma {:induction false} NoCoreAnswers(fs: seq<Fault>, ethCores: nat)
    requires ethCores <= |fs| && NoneWorks(fs[..ethCores])
    ensures Reconfigured(fs, ethCores) == End(Failed(OtherError), fs[ethCores..])
    decreases ethCores
  {
    if ethCores > 0 {
      assert fs[0] == fs[..ethCores][0] && fs[1..][..ethCores - 1] == fs[..ethCores][1..];
      NoCoreAnswers(fs[1..], ethCores - 1);
    }
  }

  /** A remote device: after any failure but a timeout, if one of the ethernet cores answers and no
      later transfer aborts, the access succeeds. */
  lemma RetrySucceeds(works: seq<Fault>, error: Error, reached: set<nat>, busy: seq<Fault>, later: seq<Fault>, n: nat,
      way: Way)
    requires AllWork(works) && |works| < n && error != Timeout && way.remote && NoneWorks(busy) && |busy| < way.ethCores
    requires AllWork(later)
    ensures var fs := works + [Aborts(error, reached)] + (busy + [Works] + later);
            Retried(fs, n, way).outcome == Done && Restarted(fs, n, way) == Retried(fs, n, way)
  {
    AttemptAborts(works, error, reached, busy + [Works] + later, n);
    SomeCoreAnswers(busy, later, way.ethCores);
    AttemptWorks(later, n);
  }

  /** If none of them answers, the access fails. */
  lemma RetryNeedsACore(works: seq<Fault>, error: Error, reached: set<nat>, later: seq<Fault>, n: nat, way: Way)
    requires AllWork(works) && |works| < n && error != Timeout && way.remote
    requires way.ethCores <= |later| && NoneWorks(later[..way.ethCores])
    ensures Retried(works + [Aborts(error, reached)] + later, n, way) == End(Failed(OtherError), later[way.ethCores..])
  {
    AttemptAborts(works, error, reached, later, n);
    NoCoreAnswers(later, way.ethCores);
  }

  /** The second attempt is the last one: when it fails, the access does. */
  lemma NoThirdAttempt(works: seq<Fault>, error: Error, reached: set<nat>, busy: seq<Fault>, again: seq<Fault>,
      error': Error, reached': set<nat>, later: seq<Fault>, n: nat, way: Way)
    requires AllWork(works) && |works| < n && error != Timeout && way.remote && NoneWorks(busy) && |busy| < way.ethCores
    requires AllWork(again) && |again| < n
    ensures Retried(works + [Aborts(error, reached)] + (busy + [Works] + (again + [Aborts(error', reached')] + later)),
            n, way) ==
            End(Failed(error'), later)
  {
    AttemptAborts(works, error, reached, busy + [Works] + (again + [Aborts(error', reached')] + later), n);
    SomeCoreAnswers(busy, again + [Aborts(error', reached')] + later, way.ethCores);
    AttemptAborts(again, error', reached', later, n);
  }

  /** There is exactly one attempt when it works or times out, and on a simulated or local device. */
  lemma OneAttempt(fs: seq<Fault>, n: nat, way: Way)
    requires Attempt(fs, n).outcome in {Done, Failed(Timeout)} || !way.remote
    ensures Retried(fs, n, way) == Attempt(fs, n)
  {
  }

  /** A local device: a bus error starts the access over; anything else ends it. */
  lemma LocalStartsOver(works: seq<Fault>, error: Error, reached: set<nat>, later: seq<Fault>, n: nat, way: Way)
    requires AllWork(works) && |works| < n && !way.remote
    ensures Restarted(works + [Aborts(error, reached)] + later, n, way) ==
            if error == Sigbus then Restarted(later, n, way) else End(Failed(error), later)
  {
    AttemptAborts(works, error, reached, later, n);
  }

  /** An access whose transfers all work succeeds at once, over any way. */
  lemma SucceedsAtOnce(fs: seq<Fault>, n: nat, way: Way)
    requires AllWork(if n <= |fs| then fs[..n] else fs)
    ensures Restarted(fs, n, way) == End(Done, if n <= |fs| then fs[n..] else [])
  {
    AttemptWorks(fs, n);
  }

  /** A remote device: two bus errors in a row start the access over. */
  lemma RemoteStartsOver(works: seq<Fault>, error: Error, reached: set<nat>, busy: seq<Fault>, again: seq<Fault>,
      reached': set<nat>, later: seq<Fault>, n: nat, way: Way)
    requires AllWork(works) && |works| < n && error != Timeout && way.remote && NoneWorks(busy) && |busy| < way.ethCores
    requires AllWork(again) && |again| < n
    ensures Restarted(works + [Aborts(error, reached)] +
            (busy + [Works] + (again + [Aborts(Sigbus, reached')] + later)), n, way) == Restarted(later, n, way)
  {
    NoThirdAttempt(works, error, reached, busy, again, Sigbus, reached', later, n, way);
  }

  /** How the access over the i-th NOC would end. */
  function NthEnd(fs: seq<Fault>, n: nat, way: Way, i: nat): End
    decreases i
  {
    if i == 0 then Restarted(fs, n, way) else NthEnd(Restarted(fs, n, way).rest, n, way, i - 1)
  }

  /** The NOCs are tried up to the first one that does not time out, and all of them if they all do. */
  lemma {:induction false} OverNocsStopsAtFirst(fs: seq<Fault>, n: nat, way: Way, nocs: nat)
    requires nocs > 0
    ensures var (end, tried) := OverNocs(fs, n, way, nocs);
            && end == NthEnd(fs, n, way, tried - 1)
            && (forall i :: 0 <= i < tried - 1 ==> NthEnd(fs, n, way, i).outcome == Failed(Timeout))
            && (end.outcome == Failed(Timeout) ==> tried == nocs)
    decreases nocs
  {
    var r := Restarted(fs, n, way);
    if r.outcome == Failed(Timeout) && nocs > 1 {
      OverNocsStopsAtFirst(r.rest, n, way, nocs - 1);
      var (end, tried) := OverNocs(r.rest, n, way, nocs - 1);
      forall i | 0 <= i < tried ensures NthEnd(fs, n, way, i).outcome == Failed(Timeout) {
        if i > 0 {
          assert NthEnd(fs, n, way, i) == NthEnd(r.rest, n, way, i - 1);
        }
      }
    }
  }

  /** `offset` NOCs have been tried, and what is to come begins with `fs`. */
  ghost predicate Remains(all: seq<Fault>, fs: seq<Fault>, n: nat, way: Way, nocs: nat, offset: nat)
    requires offset < nocs
  {
    var (end, more) := OverNocs(fs, n, way, nocs - offset);
    OverNocs(all, n, way, nocs) == (end, offset + more)
  }

  lemma RemainsOrEnds(all: seq<Fault>, fs: seq<Fault>, n: nat, way: Way, nocs: nat, offset: nat)
    requires offset < nocs && Remains(all, fs, n, way, nocs, offset)
    ensures var r := Restarted(fs, n, way);
            if r.outcome == Failed(Timeout) && offset + 1 < nocs then Remains(all, r.rest, n, way, nocs, offset + 1)
            else OverNocs(all, n, way, nocs) == (r, offset + 1)
  {
  }
}
