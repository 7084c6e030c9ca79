/** When the control plane gives up on its peer: timed runs with a keepalive tick every two seconds. */
module Keepalive {
  import opened Common
  import opened ControlPlane

  function TickCount(es: seq<Input>): nat {
    if es == [] then 0 else TickCount(es[..|es| - 1]) + if es[|es| - 1].Tick? then 1 else 0
  }

  /** When the tick after those of `es` is due; the timer starts with the session. */
  function Due(startAt: nat, es: seq<Input>): nat { startAt + KEEPALIVE_MS * (TickCount(es) + 1) }

  /** Turns take no time: they happen in time order, and each tick exactly when it is due. */
  predicate Timed(startAt: nat, es: seq<Input>) {
    es == [] ||
      var prefix, last := es[..|es| - 1], es[|es| - 1];
      && Timed(startAt, prefix)
      && startAt <= last.at <= Due(startAt, prefix)
      && (prefix != [] ==> prefix[|prefix| - 1].at <= last.at)
      && (last.Tick? ==> last.at == Due(startAt, prefix))
  }

  lemma {:induction false} TimeMovesOn(startAt: nat, es: seq<Input>, i: nat, j: nat)
    requires Timed(startAt, es) && i <= j < |es|
    ensures startAt <= es[i].at <= es[j].at
  {
    if j < |es| - 1 {
      TimeMovesOn(startAt, es[..|es| - 1], i, j);
    } else if i < j {
      TimeMovesOn(startAt, es[..|es| - 1], i, j - 1);
    } else if j > 0 {
      TimeMovesOn(startAt, es[..|es| - 1], 0, j - 1);
    }
  }

  lemma HeardIsRecent(startAt: nat, es: seq<Input>, k: nat)
    requires Timed(startAt, es)
    ensures startAt <= LastHeard(startAt, es)
    ensures k < |es| && es[k].Received? ==> es[k].at <= LastHeard(startAt, es)
    ensures es != [] ==> LastHeard(startAt, es) <= es[|es| - 1].at
  {
    var last := LastOf(es, IsReceipt);
    if last.Some? {
      TimeMovesOn(startAt, es, last.value, |es| - 1);
      if k < |es| && es[k].Received? {
        TimeMovesOn(startAt, es, k, last.value);
      }
    } else if es != [] {
      TimeMovesOn(startAt, es, 0, |es| - 1);
    }
  }

  lemma HeardSnoc(startAt: nat, es: seq<Input>)
    requires Timed(startAt, es) && es != []
    ensures LastHeard(startAt, es[..|es| - 1]) <= LastHeard(startAt, es)
    ensures !es[|es| - 1].Received? ==> LastHeard(startAt, es[..|es| - 1]) == LastHeard(startAt, es)
  {
    var prefix, last := es[..|es| - 1], es[|es| - 1];
    assert prefix + [last] == es;
    TelemetrySnoc(None, startAt, prefix, last);
    HeardIsRecent(startAt, prefix, 0);
    if prefix != [] {
      TimeMovesOn(startAt, es, |prefix| - 1, |prefix|);
    }
  }

  /** While the session runs, its latest tick found the peer heard within six seconds. */
  lemma {:induction false} LatestTickInTime(link: Link, startAt: nat, shared: Snapshot, es: seq<Input>)
    requires Timed(startAt, es) && Alive(Begin(link, startAt, shared), es)
    requires Exec(Begin(link, startAt, shared), es).running
    ensures Due(startAt, es) <= LastHeard(startAt, es) + DEAD_PEER_MS + KEEPALIVE_MS
  {
    if es != [] {
      LatestTickInTime(link, startAt, shared, es[..|es| - 1]);
      OneFinalState(link, startAt, shared, es);
      HeardSnoc(startAt, es);
    }
  }

  /**
   * A peer silent after time `t` is dropped in time: no turn comes later than eight seconds after `t`.
   * The tick that drops a peer last heard at `h` is the first one later than `h` plus six seconds.
   */
  lemma SilentPeerIsDropped(link: Link, startAt: nat, shared: Snapshot, es: seq<Input>, t: nat)
    requires Timed(startAt, es) && Alive(Begin(link, startAt, shared), es) && es != []
    requires startAt <= t && forall i :: 0 <= i < |es| && es[i].Received? ==> es[i].at <= t
    ensures es[|es| - 1].at <= t + 8_000
    ensures var last, h := es[|es| - 1], LastHeard(startAt, es[..|es| - 1]);
      last.Tick? && last.ok ==>
        && (Exec(Begin(link, startAt, shared), es).running <==> last.at <= h + 6_000)
        && last.at - 2_000 <= h + 6_000
  {
    var prefix := es[..|es| - 1];
    LatestTickInTime(link, startAt, shared, prefix);
    OneFinalState(link, startAt, shared, es);
    var heard := LastOf(prefix, IsReceipt);
    if heard.Some? {
      assert es[heard.value].Received?;
    }
  }

  /** Every PING older than `d` milliseconds has been followed, within `d`, by something from the peer. */
  ghost predicate AnswersWithin(es: seq<Input>, d: nat) {
    forall i, j :: 0 <= i < j < |es| && es[i].Tick? && es[j].at > es[i].at + d ==>
      exists k :: i < k < j && es[k].Received? && es[k].at <= es[i].at + d
  }

  lemma {:induction false} TickAt(startAt: nat, es: seq<Input>, m: nat) returns (i: nat)
    requires Timed(startAt, es) && 1 <= m <= TickCount(es)
    ensures i < |es| && es[i].Tick? && es[i].at == startAt + KEEPALIVE_MS * m
  {
    if m == TickCount(es) && es[|es| - 1].Tick? {
      i := |es| - 1;
    } else {
      i := TickAt(startAt, es[..|es| - 1], m);
    }
  }

  lemma AnswerTo(es: seq<Input>, d: nat, i: nat, j: nat) returns (k: nat)
    requires AnswersWithin(es, d) && i < j < |es| && es[i].Tick? && es[j].at > es[i].at + d
    ensures i < k < j && es[k].Received?
  {
    k :| i < k < j && es[k].Received? && es[k].at <= es[i].at + d;
  }

  /** A tick either comes within six seconds of the start, or there was a tick six seconds before it. */
  lemma EarlierTick(startAt: nat, es: seq<Input>) returns (i: nat)
    requires Timed(startAt, es) && es != [] && es[|es| - 1].Tick?
    ensures es[|es| - 1].at <= startAt + DEAD_PEER_MS
      || (i < |es| - 1 && es[i].Tick? && es[|es| - 1].at == es[i].at + DEAD_PEER_MS)
  {
    var prefix := es[..|es| - 1];
    i := 0;
    if TickCount(prefix) >= 3 {
      i := TickAt(startAt, prefix, TickCount(prefix) - 2);
    }
  }

  lemma HeardSince(startAt: nat, es: seq<Input>, i: nat, k: nat)
    requires Timed(startAt, es) && i < k < |es| - 1 && es[k].Received?
    ensures es[i].at <= LastHeard(startAt, es[..|es| - 1])
  {
    TimeMovesOn(startAt, es, i, k);
    HeardIsRecent(startAt, es[..|es| - 1], k);
  }

  lemma PromptPeerIsHeard(startAt: nat, es: seq<Input>, d: nat)
    requires d < DEAD_PEER_MS && AnswersWithin(es, d) && Timed(startAt, es)
    requires es != [] && es[|es| - 1].Tick?
    ensures es[|es| - 1].at <= LastHeard(startAt, es[..|es| - 1]) + DEAD_PEER_MS
  {
    var i := EarlierTick(startAt, es);
    if es[|es| - 1].at <= startAt + DEAD_PEER_MS {
      HeardIsRecent(startAt, es[..|es| - 1], 0);
    } else {
      var k := AnswerTo(es, d, i, |es| - 1);
      HeardSince(startAt, es, i, k);
    }
  }

  /** A peer that answers every PING in less than six seconds survives every tick. */
  lemma PromptPeerSurvives(link: Link, startAt: nat, shared: Snapshot, es: seq<Input>, d: nat)
    requires d < 6_000 && AnswersWithin(es, d)
    requires Timed(startAt, es) && Alive(Begin(link, startAt, shared), es)
    requires es != [] && es[|es| - 1].Tick? && es[|es| - 1].ok
    ensures Exec(Begin(link, startAt, shared), es).running
  {
    OneFinalState(link, startAt, shared, es);
    PromptPeerIsHeard(startAt, es, d);
  }

  function SilentTicks(n: nat): seq<Input> {
    if n == 0 then [] else SilentTicks(n - 1) + [Tick(KEEPALIVE_MS * n, 0, true)]
  }

  lemma {:induction false} SilentTicksAre(n: nat)
    ensures |SilentTicks(n)| == n
    ensures forall i :: 0 <= i < n ==> SilentTicks(n)[i] == Tick(KEEPALIVE_MS * (i + 1), 0, true)
  {
    if n > 0 {
      SilentTicksAre(n - 1);
    }
  }

  lemma {:induction false} SilentTicksOnTime(n: nat)
    ensures TickCount(SilentTicks(n)) == n && Timed(0, SilentTicks(n)) && LastHeard(0, SilentTicks(n)) == 0
  {
    if n > 0 {
      var prefix, last := SilentTicks(n - 1), Tick(KEEPALIVE_MS * n, 0, true);
      SilentTicksOnTime(n - 1);
      SilentTicksAre(n - 1);
      assert n > 1 ==> prefix[n - 2].at == KEEPALIVE_MS * (n - 1);
      TickOnTime(prefix, last);
      TelemetrySnoc(None, 0, prefix, last);
    }
  }

  lemma TickOnTime(es: seq<Input>, tick: Input)
    requires Timed(0, es) && tick.Tick? && tick.at == Due(0, es)
    requires es != [] ==> es[|es| - 1].at <= tick.at
    ensures Timed(0, es + [tick]) && TickCount(es + [tick]) == TickCount(es) + 1
  {
    assert (es + [tick])[..|es|] == es;
  }

  lemma OneMoreTick(link: Link, shared: Snapshot, es: seq<Input>, tick: Input)
    requires Alive(Begin(link, 0, shared), es) && Exec(Begin(link, 0, shared), es).running
    requires LastHeard(0, es) == 0 && tick.Tick? && tick.ok
    ensures Alive(Begin(link, 0, shared), es + [tick])
    ensures Exec(Begin(link, 0, shared), es + [tick]).running <==> tick.at <= DEAD_PEER_MS
  {
    AliveSnoc(Begin(link, 0, shared), es, tick);
    OneFinalState(link, 0, shared, es + [tick]);
    assert (es + [tick])[..|es|] == es;
  }

  lemma {:induction false} SilentRunEndsAtFour(link: Link, shared: Snapshot, n: nat)
    requires n <= 4
    ensures Alive(Begin(link, 0, shared), SilentTicks(n))
    ensures Exec(Begin(link, 0, shared), SilentTicks(n)).running <==> n < 4
  {
    if n > 0 {
      SilentRunEndsAtFour(link, shared, n - 1);
      SilentTicksOnTime(n - 1);
      OneMoreTick(link, shared, SilentTicks(n - 1), Tick(KEEPALIVE_MS * n, 0, true));
    }
  }

  /** Six seconds is the limit: a peer allowed that long, or longer, can be dropped before it is late. */
  lemma SlowPeerCanBeDropped(link: Link, shared: Snapshot, d: nat)
    requires d >= 6_000
    ensures var es := SilentTicks(4);
      && Timed(0, es) && Alive(Begin(link, 0, shared), es) && AnswersWithin(es, d)
      && es[|es| - 1].Tick? && es[|es| - 1].ok && !Exec(Begin(link, 0, shared), es).running
  {
    SilentTicksAre(4);
    SilentTicksOnTime(4);
    SilentRunEndsAtFour(link, shared, 4);
  }
}
