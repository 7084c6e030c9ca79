/** USB hot-plug events, derived by comparing successive device listings. */
module UsbDiff {
  import opened Common

  datatype Connection = OverUsb | OverNetwork

  datatype UsbDevice = UsbDevice(id: u32, udid: string, connection: Connection, productId: Option<u16>)

  datatype UsbEvent = Connected(device: UsbDevice) | Lost(id: u32, udid: string)

  function EventId(e: UsbEvent): u32 {
    match e case Connected(d) => d.id case Lost(id, _) => id
  }

  /** A listing may fail. */
  type Listing = Option<seq<UsbDevice>>

  predicate Has(ds: seq<UsbDevice>, id: u32) {
    ds != [] && (ds[|ds| - 1].id == id || Has(ds[..|ds| - 1], id))
  }

  function OnUsb(ds: seq<UsbDevice>): seq<UsbDevice> {
    if ds == [] then []
    else
      var d := ds[|ds| - 1];
      OnUsb(ds[..|ds| - 1]) + if d.connection.OverUsb? then [d] else []
  }

  function Fresh(now: seq<UsbDevice>, prev: seq<UsbDevice>): seq<UsbEvent> {
    if now == [] then []
    else
      var d := now[|now| - 1];
      Fresh(now[..|now| - 1], prev) + if Has(prev, d.id) then [] else [Connected(d)]
  }

  function Gone(prev: seq<UsbDevice>, now: seq<UsbDevice>): seq<UsbEvent> {
    if prev == [] then []
    else
      var p := prev[|prev| - 1];
      Gone(prev[..|prev| - 1], now) + if Has(now, p.id) then [] else [Lost(p.id, p.udid)]
  }

  function Diff(prev: seq<UsbDevice>, now: seq<UsbDevice>): seq<UsbEvent> { Fresh(now, prev) + Gone(prev, now) }

  class Watcher {
    var prev: seq<UsbDevice>
    var events: seq<UsbEvent>

    constructor ()
      ensures prev == [] && events == []
    {
      prev, events := [], [];
    }

    method AnnounceFresh(now: seq<UsbDevice>)
      modifies this`events
      ensures events == old(events) + Fresh(now, prev)
    {
      for i := 0 to |now|
        invariant events == old(events) + Fresh(now[..i], prev)
      {
        assert now[..i + 1][..i] == now[..i];
        if !Has(prev, now[i].id) {
          events := events + [Connected(now[i])];
        }
      }
      assert now[..|now|] == now;
    }

    method AnnounceGone(now: seq<UsbDevice>)
      modifies this`events
      ensures events == old(events) + Gone(prev, now)
    {
      for i := 0 to |prev|
        invariant events == old(events) + Gone(prev[..i], now)
      {
        assert prev[..i + 1][..i] == prev[..i];
        if !Has(now, prev[i].id) {
          events := events + [Lost(prev[i].id, prev[i].udid)];
        }
      }
      assert prev[..|prev|] == prev;
    }

    method Poll(listing: Listing)
      modifies this
      ensures listing.None? ==> prev == old(prev) && events == old(events)
      ensures listing.Some? ==> prev == OnUsb(listing.value) && events == old(events) + Diff(old(prev), prev)
    {
      if listing.None? {
        return;
      }
      var now := OnUsb(listing.value);
      AnnounceFresh(now);
      AnnounceGone(now);
      prev := now;
    }
  }

  // ------------------------------------------------------------------- runs

  function Latest(ls: seq<Listing>): seq<UsbDevice> {
    if ls == [] then []
    else if ls[|ls| - 1].None? then Latest(ls[..|ls| - 1])
    else OnUsb(ls[|ls| - 1].value)
  }

  /** The latest listing that succeeded, network devices included. */
  function LatestListing(ls: seq<Listing>): seq<UsbDevice> {
    if ls == [] then []
    else if ls[|ls| - 1].None? then LatestListing(ls[..|ls| - 1])
    else ls[|ls| - 1].value
  }

  function Events(ls: seq<Listing>): seq<UsbEvent> {
    if ls == [] then []
    else if ls[|ls| - 1].None? then Events(ls[..|ls| - 1])
    else Events(ls[..|ls| - 1]) + Diff(Latest(ls[..|ls| - 1]), OnUsb(ls[|ls| - 1].value))
  }

  /** The watcher, polled any number of times, holds what these functions say. */
  method Watch(ls: seq<Listing>) returns (w: Watcher)
    ensures w.prev == Latest(ls) && w.events == Events(ls)
  {
    w := new Watcher();
    for i := 0 to |ls|
      invariant w.prev == Latest(ls[..i]) && w.events == Events(ls[..i])
      invariant fresh(w)
    {
      assert ls[..i + 1][..i] == ls[..i];
      w.Poll(ls[i]);
    }
    assert ls[..|ls|] == ls;
  }

  function Count(ds: seq<UsbDevice>, id: u32): nat {
    if ds == [] then 0 else Count(ds[..|ds| - 1], id) + if ds[|ds| - 1].id == id then 1 else 0
  }

  lemma {:induction false} HasIffCount(ds: seq<UsbDevice>, id: u32)
    ensures Has(ds, id) <==> Count(ds, id) > 0
  {
    if ds != [] {
      HasIffCount(ds[..|ds| - 1], id);
    }
  }

  function About(id: u32, es: seq<UsbEvent>): seq<UsbEvent> {
    if es == [] then []
    else About(id, es[..|es| - 1]) + if EventId(es[|es| - 1]) == id then [es[|es| - 1]] else []
  }

  lemma {:induction false} AboutConcat(id: u32, a: seq<UsbEvent>, b: seq<UsbEvent>)
    ensures About(id, a + b) == About(id, a) + About(id, b)
  {
    if b == [] {
      assert a + b == a;
    } else {
      AboutConcat(id, a, b[..|b| - 1]);
      assert (a + b)[..|a + b| - 1] == a + b[..|b| - 1];
    }
  }

  /** A new id is reported once for each time the listing shows it. */
  lemma {:induction false} AboutFresh(id: u32, now: seq<UsbDevice>, prev: seq<UsbDevice>)
    ensures var r := About(id, Fresh(now, prev));
      && |r| == (if Has(prev, id) then 0 else Count(now, id))
      && forall k :: 0 <= k < |r| ==> r[k].Connected?
  {
    if now != [] {
      var d := now[|now| - 1];
      AboutFresh(id, now[..|now| - 1], prev);
      AboutConcat(id, Fresh(now[..|now| - 1], prev), if Has(prev, d.id) then [] else [Connected(d)]);
    }
  }

  lemma {:induction false} AboutGone(id: u32, prev: seq<UsbDevice>, now: seq<UsbDevice>)
    ensures var r := About(id, Gone(prev, now));
      && |r| == (if Has(now, id) then 0 else Count(prev, id))
      && forall k :: 0 <= k < |r| ==> r[k].Lost?
  {
    if prev != [] {
      var p := prev[|prev| - 1];
      AboutGone(id, prev[..|prev| - 1], now);
      AboutConcat(id, Gone(prev[..|prev| - 1], now), if Has(now, p.id) then [] else [Lost(p.id, p.udid)]);
    }
  }

  /** How often a poll reports a device: not at all while its presence stays the same. */
  function Reports(prev: seq<UsbDevice>, now: seq<UsbDevice>, id: u32): nat {
    if Has(prev, id) == Has(now, id) then 0 else if Has(now, id) then Count(now, id) else Count(prev, id)
  }

  /** A poll reports a change of presence, as often as the listing names the device, and nothing else. */
  lemma AboutDiff(id: u32, prev: seq<UsbDevice>, now: seq<UsbDevice>)
    ensures var r := About(id, Diff(prev, now));
      && |r| == Reports(prev, now, id)
      && (Has(prev, id) != Has(now, id) ==> r != [])
      && forall k :: 0 <= k < |r| ==> (r[k].Connected? <==> Has(now, id))
  {
    AboutFresh(id, now, prev);
    AboutGone(id, prev, now);
    AboutConcat(id, Fresh(now, prev), Gone(prev, now));
    HasIffCount(now, id);
    HasIffCount(prev, id);
  }

  /** Events carry the truth: what was connected is in the new listing, what was lost was in the old one. */
  lemma {:induction false} FreshAreListed(now: seq<UsbDevice>, prev: seq<UsbDevice>)
    ensures forall e :: e in Fresh(now, prev) ==> e.Connected? && e.device in now
  {
    if now != [] {
      FreshAreListed(now[..|now| - 1], prev);
    }
  }

  lemma {:induction false} GoneWereListed(prev: seq<UsbDevice>, now: seq<UsbDevice>)
    ensures forall e :: e in Gone(prev, now) ==> e.Lost? && exists p :: p in prev && e == Lost(p.id, p.udid)
  {
    if prev != [] {
      var before, p := prev[..|prev| - 1], prev[|prev| - 1];
      GoneWereListed(before, now);
      forall e | e in Gone(prev, now)
        ensures e.Lost? && exists q :: q in prev && e == Lost(q.id, q.udid)
      {
        if e in Gone(before, now) {
          var q :| q in before && e == Lost(q.id, q.udid);
          assert q in prev;
        } else {
          assert p in prev && e == Lost(p.id, p.udid);
        }
      }
    }
  }

  /** What one more poll adds to the events of a device. */
  lemma PollAdds(ls: seq<Listing>, id: u32) returns (more: seq<UsbEvent>)
    requires ls != []
    ensures var before := ls[..|ls| - 1];
      && About(id, Events(ls)) == About(id, Events(before)) + more
      && |more| == Reports(Latest(before), Latest(ls), id)
      && (Has(Latest(before), id) != Has(Latest(ls), id) ==> more != [])
      && forall k :: 0 <= k < |more| ==> (more[k].Connected? <==> Has(Latest(ls), id))
  {
    more := [];
    var before, last := ls[..|ls| - 1], ls[|ls| - 1];
    if last.Some? {
      var prev, now := Latest(before), OnUsb(last.value);
      AboutDiff(id, prev, now);
      AboutConcat(id, Events(before), Diff(prev, now));
      more := About(id, Diff(prev, now));
    } else {
      assert About(id, Events(ls)) == About(id, Events(before)) + [];
    }
  }

  predicate LastIsConnected(es: seq<UsbEvent>) { es != [] && es[|es| - 1].Connected? }

  /** The last event about a device tells whether the latest successful listing shows it on USB. */
  lemma {:induction false} LastTells(ls: seq<Listing>, id: u32)
    ensures LastIsConnected(About(id, Events(ls))) <==> Has(Latest(ls), id)
  {
    if ls != [] {
      LastTells(ls[..|ls| - 1], id);
      var so := About(id, Events(ls[..|ls| - 1]));
      var more := PollAdds(ls, id);
      if more != [] {
        assert (so + more)[|so + more| - 1] == more[|more| - 1];
      } else {
        assert so + more == so;
      }
    }
  }

  // ------------------------------------------------------------ alternation

  /** Connected first, then strictly in turn. */
  predicate Alternates(es: seq<UsbEvent>) { forall k :: 0 <= k < |es| ==> (es[k].Connected? <==> k % 2 == 0) }

  /** Every listing that makes a device appear, and every one it disappears from, names it once. */
  predicate NamedOnce(ls: seq<Listing>, id: u32) {
    ls == [] || (NamedOnce(ls[..|ls| - 1], id) && Reports(Latest(ls[..|ls| - 1]), Latest(ls), id) <= 1)
  }

  lemma AlternatesOn(es: seq<UsbEvent>, more: seq<UsbEvent>, connected: bool)
    requires forall k :: 0 <= k < |more| ==> (more[k].Connected? <==> connected)
    requires more != [] ==> LastIsConnected(es) != connected
    ensures Alternates(es + more) <==> Alternates(es) && |more| <= 1
  {
    assert |more| >= 2 ==> (es + more)[|es|] == more[0] && (es + more)[|es| + 1] == more[1];
    if Alternates(es + more) {
      AlternatesBefore(es, more);
    } else if |more| == 1 {
      assert es + more == es + [more[0]];
    } else if more == [] {
      assert es + more == es;
    }
  }

  lemma AlternatesBefore(es: seq<UsbEvent>, more: seq<UsbEvent>)
    requires Alternates(es + more)
    ensures Alternates(es)
  {
    forall k | 0 <= k < |es| ensures es[k].Connected? <==> k % 2 == 0 {
      assert (es + more)[k] == es[k];
    }
  }

  /**
   * For every sequence of polls, failed ones included: the events of a device alternate, connected
   * first, exactly when no listing that changes its presence names it twice.
   */
  lemma {:induction false} EventsAlternateIff(ls: seq<Listing>, id: u32)
    ensures Alternates(About(id, Events(ls))) <==> NamedOnce(ls, id)
  {
    if ls != [] {
      var before := ls[..|ls| - 1];
      EventsAlternateIff(before, id);
      LastTells(before, id);
      var more := PollAdds(ls, id);
      AlternatesOn(About(id, Events(before)), more, Has(Latest(ls), id));
    }
  }

  /** No id occurs twice. */
  ghost predicate DistinctIds(ds: seq<UsbDevice>) { forall id :: Count(ds, id) <= 1 }

  ghost predicate ListsDistinct(ls: seq<Listing>) {
    forall i :: 0 <= i < |ls| && ls[i].Some? ==> DistinctIds(ls[i].value)
  }

  lemma {:induction false} FilterCount(ds: seq<UsbDevice>, id: u32)
    ensures Count(OnUsb(ds), id) <= Count(ds, id)
  {
    if ds != [] {
      FilterCount(ds[..|ds| - 1], id);
      OnUsbSnoc(ds);
    }
  }

  lemma {:induction false} LatestNamesOnce(ls: seq<Listing>, id: u32)
    requires ListsDistinct(ls)
    ensures Count(Latest(ls), id) <= 1
  {
    if ls != [] {
      LatestNamesOnce(ls[..|ls| - 1], id);
      if ls[|ls| - 1].Some? {
        FilterCount(ls[|ls| - 1].value, id);
      }
    }
  }

  lemma {:induction false} DistinctAreNamedOnce(ls: seq<Listing>, id: u32)
    requires ListsDistinct(ls)
    ensures NamedOnce(ls, id)
  {
    if ls != [] {
      DistinctAreNamedOnce(ls[..|ls| - 1], id);
      LatestNamesOnce(ls[..|ls| - 1], id);
      LatestNamesOnce(ls, id);
    }
  }

  /** In particular, all devices' events alternate when every listing names each id once. */
  lemma EventsAlternate(ls: seq<Listing>, id: u32)
    requires ListsDistinct(ls)
    ensures Alternates(About(id, Events(ls)))
  {
    DistinctAreNamedOnce(ls, id);
    EventsAlternateIff(ls, id);
  }

  lemma OnUsbSnoc(ds: seq<UsbDevice>)
    requires ds != []
    ensures var r, d := OnUsb(ds[..|ds| - 1]), ds[|ds| - 1];
      if d.connection.OverUsb? then
        |OnUsb(ds)| == |r| + 1 && OnUsb(ds)[|r|] == d && OnUsb(ds)[..|r|] == r
      else OnUsb(ds) == r
  {
  }

  // ------------------------------------------------------- what a listener sees

  /** The devices a listener believes present. */
  function Present(es: seq<UsbEvent>): set<u32> {
    if es == [] then {}
    else
      match es[|es| - 1]
      case Connected(d) => Present(es[..|es| - 1]) + {d.id}
      case Lost(id, _) => Present(es[..|es| - 1]) - {id}
  }

  lemma {:induction false} PresentByLast(es: seq<UsbEvent>, id: u32)
    ensures id in Present(es) <==> LastIsConnected(About(id, es))
  {
    if es != [] {
      PresentByLast(es[..|es| - 1], id);
    }
  }

  lemma {:induction false} LatestFilters(ls: seq<Listing>)
    ensures Latest(ls) == OnUsb(LatestListing(ls))
  {
    if ls != [] {
      LatestFilters(ls[..|ls| - 1]);
    }
  }

  lemma {:induction false} OnUsbHasIff(ds: seq<UsbDevice>, id: u32)
    ensures Has(OnUsb(ds), id) <==> exists d :: d in ds && d.connection.OverUsb? && d.id == id
  {
    if ds != [] {
      OnUsbHasIff(ds[..|ds| - 1], id);
      OnUsbSnoc(ds);
      assert ds == ds[..|ds| - 1] + [ds[|ds| - 1]];
    }
  }

  /** Folding the events gives exactly the ids the latest successful listing shows on USB. */
  lemma ListenerIsUpToDate(ls: seq<Listing>, id: u32)
    ensures id in Present(Events(ls))
      <==> exists d :: d in LatestListing(ls) && d.connection.OverUsb? && d.id == id
  {
    PresentByLast(Events(ls), id);
    LastTells(ls, id);
    LatestFilters(ls);
    OnUsbHasIff(LatestListing(ls), id);
  }
}
