/** The phone's listener: waiting callers are handed control and media connections in arrival order. */
module Listener {
  import opened Common

  /** A resumed caller and the pair of connections it was given. */
  datatype Handover<C, M, K> = Handover(caller: K, control: C, media: M)

  datatype Queues<C, M, K> = Queues(
    controls: seq<C>, medias: seq<M>, callers: seq<K>, resumed: seq<Handover<C, M, K>>)

  datatype Arrival<C, M, K> =
    | ControlAccepted(control: C)
    | MediaAccepted(media: M)
    | SessionWanted(caller: K)
    | PairInjected(control: C, media: M)

  function Shortest(a: nat, b: nat, c: nat): nat { Min(a, Min(b, c)) }

  function Zip<C, M, K>(cs: seq<C>, ms: seq<M>, ks: seq<K>): (r: seq<Handover<C, M, K>>)
    requires |cs| == |ms| == |ks|
    ensures |r| == |cs| && forall i :: 0 <= i < |r| ==> r[i] == Handover(ks[i], cs[i], ms[i])
  {
    seq(|cs|, i requires 0 <= i < |cs| => Handover(ks[i], cs[i], ms[i]))
  }

  function Matched<C, M, K>(q: Queues<C, M, K>): Queues<C, M, K> {
    var n := Shortest(|q.controls|, |q.medias|, |q.callers|);
    Queues(q.controls[n..], q.medias[n..], q.callers[n..],
           q.resumed + Zip(q.controls[..n], q.medias[..n], q.callers[..n]))
  }

  function Enqueue<C, M, K>(q: Queues<C, M, K>, a: Arrival<C, M, K>): Queues<C, M, K> {
    match a
    case ControlAccepted(c) => q.(controls := q.controls + [c])
    case MediaAccepted(m) => q.(medias := q.medias + [m])
    case SessionWanted(k) => q.(callers := q.callers + [k])
    case PairInjected(c, m) => q.(controls := q.controls + [c], medias := q.medias + [m])
  }

  class TransportListener<C, M, K> {
    var pendingControl: seq<C>
    var pendingMedia: seq<M>
    var sessionContinuations: seq<K>
    var resumed: seq<Handover<C, M, K>>

    ghost function State(): Queues<C, M, K>
      reads this
    {
      Queues(pendingControl, pendingMedia, sessionContinuations, resumed)
    }

    constructor ()
      ensures State() == Queues([], [], [], [])
    {
      pendingControl, pendingMedia, sessionContinuations, resumed := [], [], [], [];
    }

    method TryMatch()
      modifies this
      ensures State() == Matched(old(State()))
    {
      ghost var q := State();
      ghost var n := 0;
      while sessionContinuations != [] && pendingControl != [] && pendingMedia != []
        invariant n <= Shortest(|q.controls|, |q.medias|, |q.callers|)
        invariant pendingControl == q.controls[n..]
        invariant pendingMedia == q.medias[n..]
        invariant sessionContinuations == q.callers[n..]
        invariant resumed == q.resumed + Zip(q.controls[..n], q.medias[..n], q.callers[..n])
        decreases |pendingControl|
      {
        var caller, control, media := sessionContinuations[0], pendingControl[0], pendingMedia[0];
        sessionContinuations := sessionContinuations[1..];
        pendingControl := pendingControl[1..];
        pendingMedia := pendingMedia[1..];
        resumed := resumed + [Handover(caller, control, media)];
        ZipSnoc(q.controls, q.medias, q.callers, n);
        n := n + 1;
      }
    }

    method Arrive(a: Arrival<C, M, K>)
      modifies this
      ensures State() == Matched(Enqueue(old(State()), a))
    {
      match a {
        case ControlAccepted(c) => pendingControl := pendingControl + [c];
        case MediaAccepted(m) => pendingMedia := pendingMedia + [m];
        case SessionWanted(k) => sessionContinuations := sessionContinuations + [k];
        case PairInjected(c, m) =>
          pendingControl := pendingControl + [c];
          pendingMedia := pendingMedia + [m];
      }
      TryMatch();
    }
  }

  lemma ZipSnoc<C, M, K>(cs: seq<C>, ms: seq<M>, ks: seq<K>, n: nat)
    requires n < |cs| && n < |ms| && n < |ks|
    ensures Zip(cs[..n + 1], ms[..n + 1], ks[..n + 1])
      == Zip(cs[..n], ms[..n], ks[..n]) + [Handover(ks[n], cs[n], ms[n])]
  {
  }

  // ------------------------------------------------------------------- runs

  function Exec<C, M, K>(es: seq<Arrival<C, M, K>>): Queues<C, M, K> {
    if es == [] then Queues([], [], [], []) else Matched(Enqueue(Exec(es[..|es| - 1]), es[|es| - 1]))
  }

  function Controls<C, M, K>(es: seq<Arrival<C, M, K>>): seq<C> {
    if es == [] then []
    else
      Controls(es[..|es| - 1])
      + match es[|es| - 1] case ControlAccepted(c) => [c] case PairInjected(c, _) => [c] case _ => []
  }

  function Medias<C, M, K>(es: seq<Arrival<C, M, K>>): seq<M> {
    if es == [] then []
    else
      Medias(es[..|es| - 1])
      + match es[|es| - 1] case MediaAccepted(m) => [m] case PairInjected(_, m) => [m] case _ => []
  }

  function Callers<C, M, K>(es: seq<Arrival<C, M, K>>): seq<K> {
    if es == [] then []
    else Callers(es[..|es| - 1]) + match es[|es| - 1] case SessionWanted(k) => [k] case _ => []
  }

  /** The queues after all of `cs`, `ms` and `ks` arrived, in whatever interleaving. */
  ghost predicate InOrder<C, M, K>(q: Queues<C, M, K>, cs: seq<C>, ms: seq<M>, ks: seq<K>) {
    var n := |q.resumed|;
    && n <= Shortest(|cs|, |ms|, |ks|)
    && q.controls == cs[n..] && q.medias == ms[n..] && q.callers == ks[n..]
    && q.resumed == Zip(cs[..n], ms[..n], ks[..n])
  }

  lemma EnqueueInOrder<C, M, K>(q: Queues<C, M, K>, a: Arrival<C, M, K>, es: seq<Arrival<C, M, K>>)
    requires InOrder(q, Controls(es), Medias(es), Callers(es))
    ensures var es' := es + [a]; InOrder(Enqueue(q, a), Controls(es'), Medias(es'), Callers(es'))
  {
    var es' := es + [a];
    var n := |q.resumed|;
    assert es'[..|es|] == es;
    assert Controls(es')[..n] == Controls(es)[..n];
    assert Medias(es')[..n] == Medias(es)[..n];
    assert Callers(es')[..n] == Callers(es)[..n];
  }

  lemma MatchedInOrder<C, M, K>(q: Queues<C, M, K>, cs: seq<C>, ms: seq<M>, ks: seq<K>)
    requires InOrder(q, cs, ms, ks)
    ensures InOrder(Matched(q), cs, ms, ks) && |Matched(q).resumed| == Shortest(|cs|, |ms|, |ks|)
  {
    var k, n := |q.resumed|, Shortest(|q.controls|, |q.medias|, |q.callers|);
    assert cs[k..][n..] == cs[k + n..] && ms[k..][n..] == ms[k + n..] && ks[k..][n..] == ks[k + n..];
    assert Matched(q).resumed == Zip(cs[..k + n], ms[..k + n], ks[..k + n]);
  }

  /** All that has arrived so far is in order, and as much of it as possible handed over. */
  ghost predicate UpToDate<C, M, K>(q: Queues<C, M, K>, es: seq<Arrival<C, M, K>>) {
    && InOrder(q, Controls(es), Medias(es), Callers(es))
    && |q.resumed| == Shortest(|Controls(es)|, |Medias(es)|, |Callers(es)|)
  }

  lemma ArrivalKeepsUpToDate<C, M, K>(q: Queues<C, M, K>, a: Arrival<C, M, K>, es: seq<Arrival<C, M, K>>)
    requires UpToDate(q, es)
    ensures UpToDate(Matched(Enqueue(q, a)), es + [a])
  {
    EnqueueInOrder(q, a, es);
    MatchedInOrder(Enqueue(q, a), Controls(es + [a]), Medias(es + [a]), Callers(es + [a]));
  }

  lemma {:induction false} RunIsUpToDate<C, M, K>(es: seq<Arrival<C, M, K>>)
    ensures UpToDate(Exec(es), es)
  {
    if es != [] {
      var prefix, a := es[..|es| - 1], es[|es| - 1];
      RunIsUpToDate(prefix);
      ArrivalKeepsUpToDate(Exec(prefix), a, prefix);
      assert prefix + [a] == es;
    }
  }

  /**
   * However the three kinds of arrival interleave: the callers resumed so far got, in order, the first
   * connections of each kind, as many as the scarcest kind allows; the queues hold exactly what is left,
   * and one of them is empty.
   */
  lemma HandoversAreTheZip<C, M, K>(es: seq<Arrival<C, M, K>>)
    ensures var cs, ms, ks, q := Controls(es), Medias(es), Callers(es), Exec(es);
      var n := Shortest(|cs|, |ms|, |ks|);
      && q.resumed == Zip(cs[..n], ms[..n], ks[..n])
      && q.controls == cs[n..] && q.medias == ms[n..] && q.callers == ks[n..]
      && (q.controls == [] || q.medias == [] || q.callers == [])
  {
    RunIsUpToDate(es);
  }
}
