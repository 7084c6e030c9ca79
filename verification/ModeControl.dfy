/** From the adaptation controller to the wire: its modes travel through the control plane's queue. */
module ModeControl {
  import opened Tables
  import opened Protocol
  import Adaptation
  import ControlPlane

  function SetModes(ms: seq<ControlMessage>): seq<Mode> {
    if ms == [] then []
    else SetModes(ms[..|ms| - 1]) + if ms[|ms| - 1].SetMode? then [ms[|ms| - 1].mode] else []
  }

  function ModesSent(c: Adaptation.Controller, ss: seq<Adaptation.Sample>): seq<Mode> {
    Adaptation.Modes(Adaptation.Trace(c, ss))
  }

  lemma OneMoreSample(c: Adaptation.Controller, ss: seq<Adaptation.Sample>)
    requires ss != []
    ensures var before := ModesSent(c, ss[..|ss| - 1]);
      |before| <= |ModesSent(c, ss)| <= |before| + 1 && ModesSent(c, ss)[..|before|] == before
  {
    var tr := Adaptation.Trace(c, ss);
    assert tr[..|tr| - 1] == Adaptation.Trace(c, ss[..|ss| - 1]);
    assert |Adaptation.Emitted(tr[|tr| - 1].action)| <= 1;
  }

  /** Whatever part of the steps got through, it is what the controller had sent at some earlier sample. */
  lemma {:induction false} PrefixIsEarlier(c: Adaptation.Controller, ss: seq<Adaptation.Sample>, k: nat)
      returns (j: nat)
    requires k <= |ModesSent(c, ss)|
    ensures j <= |ss| && ModesSent(c, ss[..j]) == ModesSent(c, ss)[..k]
    ensures k == |ModesSent(c, ss)| ==> j == |ss|
  {
    if k == |ModesSent(c, ss)| {
      j := |ss|;
      assert ss[..j] == ss;
    } else {
      var prefix := ss[..|ss| - 1];
      OneMoreSample(c, ss);
      j := PrefixIsEarlier(c, prefix, k);
      assert prefix[..j] == ss[..j];
      assert ModesSent(c, prefix)[..k] == ModesSent(c, ss)[..k];
    }
  }

  /**
   * However commands, keepalives and replies interleave: if `k` of the driver's steps have left the
   * queue, the last SET_MODE on the wire is the mode the controller was in after some sample, and its
   * current mode once all have. From the default mode, every SET_MODE on the wire is on the ladder.
   */
  lemma WireFollowsController(
      link: ControlPlane.Link, startAt: nat, shared: ControlPlane.Snapshot, es: seq<ControlPlane.Input>,
      c: Adaptation.Controller, ss: seq<Adaptation.Sample>, k: nat) returns (j: nat)
    requires k <= |ModesSent(c, ss)| && SetModes(ControlPlane.Queued(es)) == ModesSent(c, ss)[..k]
    ensures var wire := SetModes(ControlPlane.CommandsOut(
                          ControlPlane.Exec(ControlPlane.Begin(link, startAt, shared), es).sent));
      && j <= |ss| && Adaptation.Last(c.current, wire) == Adaptation.Exec(c, ss[..j]).current
      && (k == |ModesSent(c, ss)| ==> j == |ss|)
      && (c == Adaptation.Fresh(DEFAULT_MODE, startAt) ==> forall m :: m in wire ==> Adaptation.OnLadder(m))
  {
    ControlPlane.OrderIsKept(link, startAt, shared, es);
    j := PrefixIsEarlier(c, ss, k);
    Adaptation.LastSentIsCurrent(c, ss[..j]);
    if c == Adaptation.Fresh(DEFAULT_MODE, startAt) {
      Adaptation.ReachableFromDefault(startAt, ss[..j]);
    }
  }
}
