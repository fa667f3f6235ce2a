/** The per-identity ping quota of `websocket_endpoint` (api.py): one window
    of counters per identity, reset whenever a frame arrives in a different
    wall-clock second than the one the window was started in. */
module Quota {

  /** `ping_stats[uuid]`: pings and payload bytes accepted since second `reset`. */
  datatype Window = Window(count: nat, bytes: nat, reset: int)

  /** What the `defaultdict` creates for an identity seen for the first time. */
  const FreshWindow := Window(0, 0, 0)

  datatype Verdict = Allowed | RateExceeded | SizeExceeded

  /** Done on every inbound frame, whatever its type: a window from another
      second restarts at zero in second `now`. */
  function Refresh(w: Window, now: int): (r: Window)
    ensures r.reset == now
    ensures w.reset == now ==> r == w
    ensures w.reset != now ==> r.count == 0 && r.bytes == 0
  {
    if w.reset != now then Window(0, 0, now) else w
  }

  /** The check of one well-formed ping carrying `size` payload bytes against the
      identity's `rate` (pings per second) and `limit` (bytes per second). */
  function Charge(w: Window, size: nat, rate: int, limit: int): (r: (Verdict, Window))
    ensures r.0 == Allowed <==> w.count + 1 <= rate && w.bytes + size <= limit
    ensures r.0 != Allowed ==> r.1 == w
    ensures r.0 == Allowed ==> r.1.count == w.count + 1 && r.1.bytes == w.bytes + size && r.1.reset == w.reset
  {
    if w.count + 1 > rate then (RateExceeded, w)
    else if w.bytes + size > limit then (SizeExceeded, w)
    else (Allowed, Window(w.count + 1, w.bytes + size, w.reset))
  }

  /** The rate test comes first, a rejection leaves the window as it was, and an
      acceptance adds exactly one ping and `size` bytes. */
  lemma ChargeOutcome(w: Window, size: nat, rate: int, limit: int)
    ensures var (v, w') := Charge(w, size, rate, limit);
      && (v == RateExceeded <==> w.count + 1 > rate)
      && (v == SizeExceeded <==> w.count + 1 <= rate && w.bytes + size > limit)
      && (v != Allowed ==> w' == w)
      && (v == Allowed ==> w' == Window(w.count + 1, w.bytes + size, w.reset))
  {
  }

  function Max0(x: int): nat {
    if x < 0 then 0 else x
  }

  /** The window respects the limits; a negative limit admits nothing, so it acts as 0. */
  predicate Within(w: Window, rate: int, limit: int) {
    w.count <= Max0(rate) && w.bytes <= Max0(limit)
  }

  /** Refreshing and charging never take a window over its limits. */
  lemma WithinPreserved(w: Window, now: int, size: nat, rate: int, limit: int)
    requires Within(w, rate, limit)
    ensures Within(Refresh(w, now), rate, limit)
    ensures Within(Charge(Refresh(w, now), size, rate, limit).1, rate, limit)
  {
  }

  function Sum(sizes: seq<nat>): nat {
    if sizes == [] then 0 else sizes[0] + Sum(sizes[1..])
  }

  /** A run of pings with the given payload sizes, all in second `now`: the verdicts
      and the window afterwards. */
  function Run(w: Window, now: int, sizes: seq<nat>, rate: int, limit: int): (r: (seq<Verdict>, Window))
    ensures |r.0| == |sizes|
    decreases |sizes|
  {
    if sizes == [] then ([], w)
    else
      var (v, w') := Charge(Refresh(w, now), sizes[0], rate, limit);
      var (vs, last) := Run(w', now, sizes[1..], rate, limit);
      ([v] + vs, last)
  }

  /** Within one second, pings that fit in what is left of both limits are all accepted,
      and the window then holds exactly their number and their total size. */
  lemma {:induction false} RunFits(w: Window, now: int, sizes: seq<nat>, rate: int, limit: int)
    requires w.reset == now
    requires w.count + |sizes| <= rate && w.bytes + Sum(sizes) <= limit
    ensures forall i :: 0 <= i < |sizes| ==> Run(w, now, sizes, rate, limit).0[i] == Allowed
    ensures Run(w, now, sizes, rate, limit).1 == Window(w.count + |sizes|, w.bytes + Sum(sizes), now)
    decreases |sizes|
  {
    if sizes != [] {
      var w' := Window(w.count + 1, w.bytes + sizes[0], now);
      RunFits(w', now, sizes[1..], rate, limit);
    }
  }

  /** The burst property: in a new second, `rate` pings whose sizes fit the byte limit
      go through, and the next one in the same second is refused for rate. */
  lemma RateBurst(w: Window, now: int, sizes: seq<nat>, next: nat, rate: nat, limit: int)
    requires w.reset != now
    requires |sizes| == rate && Sum(sizes) <= limit
    ensures var (vs, w') := Run(w, now, sizes, rate, limit);
      && (forall i :: 0 <= i < rate ==> vs[i] == Allowed)
      && Refresh(w', now).count == rate
      && Charge(Refresh(w', now), next, rate, limit).0 == RateExceeded
  {
    if rate == 0 {
    } else {
      var w1 := Window(1, sizes[0], now);
      assert Sum(sizes) == sizes[0] + Sum(sizes[1..]);
      RunFits(w1, now, sizes[1..], rate, limit);
    }
  }

  /** Once the second rolls over, a ping that fits both limits on its own is accepted again. */
  lemma NextSecondRecovers(w: Window, later: int, size: nat, rate: int, limit: int)
    requires w.reset != later && 1 <= rate && size <= limit
    ensures Charge(Refresh(w, later), size, rate, limit).0 == Allowed
  {
  }
}
