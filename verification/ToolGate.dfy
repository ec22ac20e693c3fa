/**
 The mandatory-tool gate: results of three required tools leave receipts, and a write is let
 through only with a fresh receipt of every kind.  Which tools a result shows to have worked,
 and whether an event only reads, are given with the event; times are in microseconds.
 */
module ToolGate {
  import opened Wrappers

  datatype Kind = CodebaseMemory | Icm | Ruflo

  const REQUIRED: seq<Kind> := [CodebaseMemory, Icm, Ruflo]
  const MAX_AGE := 3600 * 1000000

  datatype Hook = PreToolUse | PostToolUse | OtherHook

  /** Where the event happens; `Unknown` stands for a missing or unusable directory. */
  datatype Place = Inside | Outside | Unknown

  /**
   One hook event, and what the clock and the file system do meanwhile: `unsafe` if a receipt
   directory is a link, `linked` the receipts that are links, and `failing` the receipts that
   cannot be written or removed.
   */
  datatype Event = Event(
    hook: Hook,
    place: Place,
    session: Option<string>,
    readOnly: bool,
    observed: map<Kind, bool>,
    now: int,
    unsafe: bool,
    linked: set<Kind>,
    failing: set<Kind>)

  datatype Receipt = Receipt(session: string, kind: Kind, at: int)

  type Receipts = map<(string, Kind), Receipt>

  datatype Decision = NoObjection | Denied | DeniedFor(missing: seq<Kind>) | Raised

  predicate ValidReceipt(receipts: Receipts, e: Event, session: string, kind: Kind) {
    && kind !in e.linked && (session, kind) in receipts
    && var r := receipts[(session, kind)];
    r.session == session && r.kind == kind && 0 <= e.now - r.at <= MAX_AGE
  }

  function Missing(receipts: Receipts, e: Event, session: string, kinds: seq<Kind>): seq<Kind> {
    if kinds == [] then []
    else
      var n := |kinds| - 1;
      Missing(receipts, e, session, kinds[..n])
      + if ValidReceipt(receipts, e, session, kinds[n]) then [] else [kinds[n]]
  }

  datatype Outcome = Outcome(receipts: Receipts, raised: bool)

  /** The receipts after the observed kinds among `kinds`, up to the first that fails. */
  function Recorded(receipts: Receipts, e: Event, session: string, kinds: seq<Kind>): Outcome {
    if kinds == [] then Outcome(receipts, false)
    else
      var k, o := kinds[|kinds| - 1], Recorded(receipts, e, session, kinds[..|kinds| - 1]);
      if o.raised || k !in e.observed then o
      else if k in e.failing then o.(raised := true)
      else if e.observed[k] then o.(receipts := o.receipts[(session, k) := Receipt(session, k, e.now)])
      else o.(receipts := o.receipts - {(session, k)})
  }

  /** The receipts after an event. */
  function After(receipts: Receipts, e: Event): Receipts {
    if e.hook == PostToolUse && e.place == Inside && e.session.Some? && !e.unsafe then
      Recorded(receipts, e, e.session.value, REQUIRED).receipts
    else receipts
  }

  function Decide(receipts: Receipts, e: Event): Decision {
    if e.place == Outside || (e.hook == PreToolUse && e.readOnly) then NoObjection
    else if e.place == Unknown || e.session.None? || e.unsafe then
      if e.hook == PreToolUse then Denied else NoObjection
    else if e.hook == PostToolUse then
      if Recorded(receipts, e, e.session.value, REQUIRED).raised then Raised else NoObjection
    else if e.hook == PreToolUse then
      var missing := Missing(receipts, e, e.session.value, REQUIRED);
      if missing == [] then NoObjection else DeniedFor(missing)
    else NoObjection
  }

  class Gate {
    var receipts: Receipts

    constructor ()
      ensures receipts == map[]
    {
      receipts := map[];
    }

    /** `handle` */
    method Handle(e: Event) returns (d: Decision)
      modifies this
      ensures receipts == After(old(receipts), e) && d == Decide(old(receipts), e)
    {
      if e.place == Outside {
        return NoObjection;
      }
      if e.hook == PreToolUse && e.readOnly {
        return NoObjection;
      }
      if e.place == Unknown || e.session.None? || e.unsafe {
        return if e.hook == PreToolUse then Denied else NoObjection;
      }
      var session := e.session.value;
      if e.hook == PostToolUse {
        for i := 0 to |REQUIRED|
          invariant Recorded(old(receipts), e, session, REQUIRED[..i]) == Outcome(receipts, false)
        {
          var k := REQUIRED[i];
          assert REQUIRED[..i + 1][..i] == REQUIRED[..i];
          if k in e.observed {
            if k in e.failing {
              RaisedForGood(old(receipts), e, session, i + 1);
              return Raised;
            }
            receipts :=
              if e.observed[k] then receipts[(session, k) := Receipt(session, k, e.now)] else receipts - {(session, k)};
          }
        }
        assert REQUIRED[..|REQUIRED|] == REQUIRED;
        return NoObjection;
      }
      if e.hook == PreToolUse {
        var missing: seq<Kind> := [];
        for i := 0 to |REQUIRED|
          invariant missing == Missing(receipts, e, session, REQUIRED[..i])
        {
          assert REQUIRED[..i + 1][..i] == REQUIRED[..i];
          if !ValidReceipt(receipts, e, session, REQUIRED[i]) {
            missing := missing + [REQUIRED[i]];
          }
        }
        assert REQUIRED[..|REQUIRED|] == REQUIRED;
        if missing != [] {
          return DeniedFor(missing);
        }
      }
      d := NoObjection;
    }
  }

  lemma {:induction false} RaisedForGood(receipts: Receipts, e: Event, session: string, i: nat)
    requires i <= |REQUIRED| && Recorded(receipts, e, session, REQUIRED[..i]).raised
    ensures Recorded(receipts, e, session, REQUIRED) == Recorded(receipts, e, session, REQUIRED[..i])
    decreases |REQUIRED| - i
  {
    if i < |REQUIRED| {
      assert REQUIRED[..i + 1][..i] == REQUIRED[..i];
      RaisedForGood(receipts, e, session, i + 1);
    } else {
      assert REQUIRED[..i] == REQUIRED;
    }
  }

  // ---- What the runs so far show ----

  function Rank(k: Kind): nat {
    match k
    case CodebaseMemory => 0
    case Icm => 1
    case Ruflo => 2
  }

  /** The event settles the receipt of a kind: nothing fails up to and including it. */
  predicate Settles(e: Event, session: string, k: Kind) {
    && e.hook == PostToolUse && e.place == Inside && e.session == Some(session) && !e.unsafe && k in e.observed
    && forall j :: j in e.observed && Rank(j) <= Rank(k) ==> j !in e.failing
  }

  datatype Evidence = Evidence(success: bool, at: int)

  /** The last recorded result of a kind in a session. */
  function LastResult(trace: seq<Event>, session: string, k: Kind): Option<Evidence> {
    if trace == [] then None
    else
      var e := trace[|trace| - 1];
      if Settles(e, session, k) then Some(Evidence(e.observed[k], e.now))
        else LastResult(trace[..|trace| - 1], session, k)
  }

  /** The receipts after a run of the gate from an empty directory. */
  function ReceiptsAfter(trace: seq<Event>): Receipts {
    if trace == [] then map[] else After(ReceiptsAfter(trace[..|trace| - 1]), trace[|trace| - 1])
  }

  /** The receipt that the last result should have left. */
  function Expected(last: Option<Evidence>, session: string, k: Kind): Option<Receipt> {
    if last.Some? && last.value.success then Some(Receipt(session, k, last.value.at)) else None
  }

  function Stored(receipts: Receipts, session: string, k: Kind): Option<Receipt> {
    if (session, k) in receipts then Some(receipts[(session, k)]) else None
  }

  lemma RequiredByRank(k: Kind)
    ensures Rank(k) < |REQUIRED| && REQUIRED[Rank(k)] == k
  {}

  /** Some kind of rank below `n` was observed but cannot be stored. */
  predicate FailsBelow(e: Event, n: nat) {
    exists j :: j in e.observed && Rank(j) < n && j in e.failing
  }

  lemma {:induction false} RaisedExactly(receipts: Receipts, e: Event, session: string, n: nat)
    requires n <= |REQUIRED|
    ensures Recorded(receipts, e, session, REQUIRED[..n]).raised <==> FailsBelow(e, n)
  {
    if n > 0 {
      assert REQUIRED[..n][..n - 1] == REQUIRED[..n - 1];
      RaisedExactly(receipts, e, session, n - 1);
      var last := REQUIRED[n - 1];
      assert Rank(last) == n - 1;
      assert FailsBelow(e, n) <==> FailsBelow(e, n - 1) || (last in e.observed && last in e.failing);
    }
  }

  lemma {:induction false} RecordedAt(receipts: Receipts, e: Event, session: string, n: nat, s: string, k: Kind)
    requires n <= |REQUIRED|
    ensures Stored(Recorded(receipts, e, session, REQUIRED[..n]).receipts, s, k)
         == if s == session && Rank(k) < n && k in e.observed && !FailsBelow(e, Rank(k) + 1)
            then Expected(Some(Evidence(e.observed[k], e.now)), s, k)
            else Stored(receipts, s, k)
  {
    if n > 0 {
      assert REQUIRED[..n][..n - 1] == REQUIRED[..n - 1];
      RecordedAt(receipts, e, session, n - 1, s, k);
      RaisedExactly(receipts, e, session, n - 1);
      RaisedExactly(receipts, e, session, n);
      RequiredByRank(k);
    }
  }

  /** An event replaces exactly the receipts that it settles, and keeps all others. */
  lemma EventSettlesReceipts(receipts: Receipts, e: Event, s: string, k: Kind)
    ensures Stored(After(receipts, e), s, k)
         == if Settles(e, s, k) then Expected(Some(Evidence(e.observed[k], e.now)), s, k) else Stored(receipts, s, k)
  {
    if e.session.Some? {
      RecordedAt(receipts, e, e.session.value, |REQUIRED|, s, k);
      assert REQUIRED[..|REQUIRED|] == REQUIRED;
      RequiredByRank(k);
    }
  }

  /** In every run the receipts are exactly the last recorded successes. */
  lemma {:induction false} ReceiptsAreFaithful(trace: seq<Event>, s: string, k: Kind)
    ensures Stored(ReceiptsAfter(trace), s, k) == Expected(LastResult(trace, s, k), s, k)
  {
    if trace != [] {
      var n := |trace| - 1;
      ReceiptsAreFaithful(trace[..n], s, k);
      EventSettlesReceipts(ReceiptsAfter(trace[..n]), trace[n], s, k);
    }
  }

  predicate Fresh(e: Event, last: Option<Evidence>, k: Kind) {
    k !in e.linked && last.Some? && last.value.success && 0 <= e.now - last.value.at <= 3600 * 1000000
  }

  predicate FreshAfter(trace: seq<Event>, e: Event, session: string, k: Kind) {
    Fresh(e, LastResult(trace, session, k), k)
  }

  lemma {:induction false} MissingExactly(trace: seq<Event>, e: Event, session: string, kinds: seq<Kind>)
    ensures forall k ::
      k in Missing(ReceiptsAfter(trace), e, session, kinds) <==> k in kinds && !FreshAfter(trace, e, session, k)
  {
    if kinds != [] {
      var n := |kinds| - 1;
      assert kinds == kinds[..n] + [kinds[n]];
      MissingExactly(trace, e, session, kinds[..n]);
      ReceiptsAreFaithful(trace, session, kinds[n]);
    }
  }

  /** An event that the gate examines: inside the project, with a session and a safe directory. */
  predicate Examined(e: Event) {
    e.place == Inside && e.session.Some? && !e.unsafe
  }

  /**
   After every run, the gate lets a tool call through exactly if it is outside the project, or
   only reads, or the last recorded result of each required tool in its own session was a
   success at most an hour ago and not in the future.
   */
  lemma GateIsExact(trace: seq<Event>, e: Event)
    requires e.hook == PreToolUse
    ensures Decide(ReceiptsAfter(trace), e) == NoObjection
       <==> e.place == Outside || e.readOnly
            || (Examined(e) && forall k :: FreshAfter(trace, e, e.session.value, k))
  {
    if Examined(e) && !e.readOnly {
      MissingExactly(trace, e, e.session.value, REQUIRED);
      var missing := Missing(ReceiptsAfter(trace), e, e.session.value, REQUIRED);
      forall k ensures FreshAfter(trace, e, e.session.value, k) <==> k !in missing {
        RequiredByRank(k);
      }
      if missing == [] {
        assert forall k :: FreshAfter(trace, e, e.session.value, k);
        assert Decide(ReceiptsAfter(trace), e) == NoObjection;
      } else {
        var k := missing[0];
        assert k in missing && !FreshAfter(trace, e, e.session.value, k);
        assert Decide(ReceiptsAfter(trace), e) == DeniedFor(missing);
      }
    }
  }

  /** The whole rule without naming the receipts: which of the four answers each event gets. */
  lemma AnswersExactly(trace: seq<Event>, e: Event)
    ensures var d := Decide(ReceiptsAfter(trace), e);
      && (d == Raised <==> e.hook == PostToolUse && Examined(e) && exists k :: k in e.observed && k in e.failing)
      && (d == Denied <==> e.hook == PreToolUse && !e.readOnly && e.place != Outside && !Examined(e))
      && (d.DeniedFor? <==> (e.hook == PreToolUse && !e.readOnly && Examined(e)
           && exists k :: !FreshAfter(trace, e, e.session.value, k)))
  {
    var receipts := ReceiptsAfter(trace);
    if e.hook == PostToolUse && Examined(e) {
      RaisedExactly(receipts, e, e.session.value, |REQUIRED|);
      assert REQUIRED[..|REQUIRED|] == REQUIRED;
      assert FailsBelow(e, |REQUIRED|) <==> exists k :: k in e.observed && k in e.failing;
    }
    if e.hook == PreToolUse {
      GateIsExact(trace, e);
    }
  }

  /** A receipt counts only with its own session and tool written in it, wherever the file stands. */
  lemma MisfiledReceiptIsRefused(receipts: Receipts, e: Event, k: Kind)
    requires e.hook == PreToolUse && !e.readOnly && Examined(e)
    requires (e.session.value, k) in receipts
    requires var r := receipts[(e.session.value, k)]; r.session != e.session.value || r.kind != k
    ensures Decide(receipts, e).DeniedFor? && k in Decide(receipts, e).missing
  {
    MissesInvalid(receipts, e, e.session.value, REQUIRED, k);
    RequiredByRank(k);
  }

  lemma {:induction false} MissesInvalid(receipts: Receipts, e: Event, session: string, kinds: seq<Kind>, k: Kind)
    requires k in kinds && !ValidReceipt(receipts, e, session, k)
    ensures k in Missing(receipts, e, session, kinds)
  {
    var n := |kinds| - 1;
    if kinds[n] != k {
      assert kinds == kinds[..n] + [kinds[n]];
      MissesInvalid(receipts, e, session, kinds[..n], k);
    }
  }

  /** A denial for lack of results names exactly the tools without a fresh success. */
  lemma DenialNamesTheMissing(trace: seq<Event>, e: Event, k: Kind)
    requires e.hook == PreToolUse && Decide(ReceiptsAfter(trace), e).DeniedFor?
    ensures k in Decide(ReceiptsAfter(trace), e).missing <==> !FreshAfter(trace, e, e.session.value, k)
  {
    MissingExactly(trace, e, e.session.value, REQUIRED);
    RequiredByRank(k);
  }

  lemma {:induction false} LastResultStays(trace: seq<Event>, later: seq<Event>, s: string, k: Kind)
    requires forall i :: 0 <= i < |later| && Settles(later[i], s, k) ==> !later[i].observed[k]
    requires LastResult(trace, s, k) == None || !LastResult(trace, s, k).value.success
    ensures LastResult(trace + later, s, k) == None || !LastResult(trace + later, s, k).value.success
  {
    if later == [] {
      assert trace + later == trace;
    } else {
      var n := |later| - 1;
      LastResultStays(trace, later[..n], s, k);
      assert trace + later == (trace + later[..n]) + [later[n]];
    }
  }

  /**
   A recorded failure revokes: until the same tool succeeds again in the same session, no
   write of that session gets through, whatever else happens.
   */
  lemma FailureRevokes(trace: seq<Event>, failure: Event, later: seq<Event>, e: Event, k: Kind)
    requires e.hook == PreToolUse && e.place == Inside && !e.readOnly && e.session.Some?
    requires Settles(failure, e.session.value, k) && !failure.observed[k]
    requires forall i :: 0 <= i < |later| && Settles(later[i], e.session.value, k) ==> !later[i].observed[k]
    ensures Decide(ReceiptsAfter(trace + [failure] + later), e) != NoObjection
  {
    var start := trace + [failure];
    assert start[..|start| - 1] == trace;
    LastResultStays(start, later, e.session.value, k);
    GateIsExact(start + later, e);
    assert !FreshAfter(start + later, e, e.session.value, k);
  }
}
