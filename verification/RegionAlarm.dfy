/** libsrc/get_pick.c: CheckForAlarm, the alarm raised when enough stations of a region pick within a
    short time. */
module RegionAlarm {

  const MAX_ALARM_STN: nat := 50

  /** ALARMSTRUCT: the stations of the region, its limits, and the list of stations already alarmed
      (the first `count` of the slots). */
  datatype Region = Region(stations: seq<string>, thresh: int, strength: real, maxTime: real,
                           slots: seq<string>, count: nat, lastTime: real)

  /** A pick: `time` is the trigger time less the station's time correction. */
  datatype Pick = Pick(station: string, strength: real, time: real)

  /** `fired` holds the regions that raised an alarm; `stop` says that the loops were left early. */
  datatype Result = Result(region: Region, fired: bool, stop: bool)

  function Put(s: seq<string>, k: nat, x: string): seq<string> { if k < |s| then s[k := x] else s }

  predicate Listed(r: Region, x: string) { exists k :: 0 <= k < r.count && k < |r.slots| && r.slots[k] == x }

  /** The pick is of a station of the region. */
  function Matched(r: Region, p: Pick): Result {
    if p.strength <= r.strength then Result(r, false, false)
    else if p.time - r.lastTime < r.maxTime then
      if Listed(r, p.station) then Result(r, false, true)
      else
        var s := r.(slots := Put(r.slots, r.count, p.station), count := r.count + 1);
        if s.count >= s.thresh then Result(s.(count := 0, lastTime := 0.0), true, false)
        else Result(s, false, false)
    else Result(r.(slots := Put(r.slots, 0, p.station), count := 1, lastTime := p.time), false, false)
  }

  /** The station list of one region, from entry `j` on. */
  function Scanned(r: Region, p: Pick, j: nat): Result
    decreases |r.stations| - j
  {
    if j >= |r.stations| then Result(r, false, false)
    else if r.stations[j] != p.station then Scanned(r, p, j + 1)
    else
      var m := Matched(r, p);
      if m.stop then m
      else
        var n := Scanned(m.region, p, j + 1);
        n.(fired := m.fired || n.fired)
  }

  datatype Outcome = Outcome(regions: seq<Region>, fired: set<nat>)

  /** The regions from `i` on. */
  function Checked(rs: seq<Region>, p: Pick, i: nat): (o: Outcome)
    ensures |o.regions| == |rs|
    decreases |rs| - i
  {
    if i >= |rs| then Outcome(rs, {})
    else
      var n := Scanned(rs[i], p, 0);
      var here: set<nat> := if n.fired then {i} else {};
      if n.stop then Outcome(rs[i := n.region], here)
      else
        var o := Checked(rs[i := n.region], p, i + 1);
        o.(fired := here + o.fired)
  }

  // ----- the lists never overflow

  predicate Distinct(s: seq<string>) { forall i, j :: 0 <= i < j < |s| ==> s[i] != s[j] }

  predicate RegionOk(r: Region) {
    && |r.slots| == MAX_ALARM_STN && |r.stations| <= MAX_ALARM_STN
    && 2 <= r.thresh && r.count < r.thresh && r.count <= MAX_ALARM_STN
    && Distinct(r.slots[..r.count]) && (forall k :: 0 <= k < r.count ==> r.slots[k] in r.stations)
    && (r.count == 0 ==> r.lastTime == 0.0)
  }

  function Elements(s: seq<string>): set<string> { set x | x in s }

  lemma {:induction false} ElementsSize(s: seq<string>)
    ensures |Elements(s)| <= |s| && (Distinct(s) ==> |Elements(s)| == |s|)
  {
    if s != [] {
      var front, last := s[..|s| - 1], s[|s| - 1];
      ElementsSize(front);
      assert s == front + [last];
      assert Elements(s) == Elements(front) + {last};
      assert Distinct(s) ==> last !in front;
    }
  }

  /** A station of the region that is not in the list yet finds a free slot. */
  lemma FreeSlot(list: seq<string>, stations: seq<string>, x: string)
    requires Distinct(list) && (forall y :: y in list ==> y in stations) && x in stations && x !in list
    ensures |list| < |stations|
  {
    var a, b := Elements(list), Elements(stations);
    ElementsSize(list);
    ElementsSize(stations);
    assert a + {x} <= b;
    SubsetSize(a + {x}, b);
  }

  lemma SubsetSize(a: set<string>, b: set<string>)
    requires a <= b
    ensures |a| <= |b|
  {
    if a != {} {
      var x :| x in a;
      SubsetSize(a - {x}, b - {x});
    }
  }

  lemma MatchedOk(r: Region, p: Pick)
    requires RegionOk(r) && p.station in r.stations
    ensures RegionOk(Matched(r, p).region)
    ensures p.strength > r.strength && p.time - r.lastTime < r.maxTime && !Listed(r, p.station) ==> r.count < MAX_ALARM_STN
    ensures Matched(r, p).region.stations == r.stations
  {
    var list := r.slots[..r.count];
    if !Listed(r, p.station) {
      assert forall y :: y in list ==> y in r.stations;
      assert p.station !in list;
      FreeSlot(list, r.stations, p.station);
    }
  }

  predicate SameLimits(r: Region, s: Region) {
    r == s.(slots := r.slots, count := r.count, lastTime := r.lastTime)
  }

  // ----- every alarm has its witnesses

  /** Picks `w` of the history `ps`, in order, strong enough, of distinct stations of the region. */
  predicate Picked(r: Region, ps: seq<Pick>, w: seq<nat>, n: nat) {
    && n < |ps| && (forall k :: 0 <= k < |w| ==> w[k] <= n)
    && (forall a, b :: 0 <= a < b < |w| ==> w[a] < w[b])
    && (forall k :: 0 <= k < |w| ==> ps[w[k]].strength > r.strength && ps[w[k]].station in r.stations)
    && (forall a, b :: 0 <= a < b < |w| ==> ps[w[a]].station != ps[w[b]].station)
  }

  /** All picks after the first lie less than the time limit after `base`, the time of the first one. A
      list that was empty and whose time was never set counts from time zero instead. */
  predicate Based(r: Region, ps: seq<Pick>, w: seq<nat>, n: nat, base: real)
    requires n < |ps| && forall k :: 0 <= k < |w| ==> w[k] <= n
  {
    |w| > 0 ==>
      && (base == ps[w[0]].time || (base == 0.0 && ps[w[0]].time < r.maxTime))
      && forall k :: 1 <= k < |w| ==> ps[w[k]].time - base < r.maxTime
  }

  /** The list of the region stands for the picks `w`. */
  predicate Tracks(r: Region, ps: seq<Pick>, w: seq<nat>, n: nat) {
    && Picked(r, ps, w, n) && |w| == r.count <= |r.slots|
    && (forall k :: 0 <= k < |w| ==> r.slots[k] == ps[w[k]].station)
    && Based(r, ps, w, n, r.lastTime)
  }

  /** Enough picks for an alarm, the newest of them number `n`. */
  ghost predicate Witness(r: Region, ps: seq<Pick>, w: seq<nat>, n: nat) {
    Picked(r, ps, w, n) && |w| == r.thresh && |w| > 0 && w[|w| - 1] == n && exists base :: Based(r, ps, w, n, base)
  }

  ghost predicate Witnessed(r: Region, ps: seq<Pick>, n: nat) { exists w :: Witness(r, ps, w, n) }

  ghost predicate HasHistory(r: Region, ps: seq<Pick>, n: nat) { exists w :: Tracks(r, ps, w, n) }

  /** The pick joins the list. */
  lemma Joins(r: Region, ps: seq<Pick>, w: seq<nat>, n: nat)
    requires Tracks(r, ps, w, n) && ps[n].station in r.stations && ps[n].strength > r.strength
    requires ps[n].time - r.lastTime < r.maxTime && !Listed(r, ps[n].station) && (r.count == 0 ==> r.lastTime == 0.0)
    ensures Picked(r, ps, w + [n], n) && Based(r, ps, w + [n], n, r.lastTime)
  {
    var x := w + [n];
    forall k | 0 <= k < |w|
      ensures w[k] < n && ps[w[k]].station != ps[n].station
    {
      assert r.slots[k] == ps[w[k]].station;
    }
    assert |w| > 0 ==> x[0] == w[0];
  }

  lemma JoinedTracks(r: Region, ps: seq<Pick>, w: seq<nat>, n: nat, s: Region)
    requires Tracks(r, ps, w, n) && r.count < |r.slots| && SameLimits(r, s)
    requires Picked(r, ps, w + [n], n) && Based(r, ps, w + [n], n, r.lastTime)
    requires s.slots == r.slots[r.count := ps[n].station] && s.count == r.count + 1 && s.lastTime == r.lastTime
    ensures Tracks(s, ps, w + [n], n)
  {}

  lemma Fires(r: Region, ps: seq<Pick>, x: seq<nat>, n: nat, base: real)
    requires Picked(r, ps, x, n) && Based(r, ps, x, n, base) && |x| == r.thresh && |x| > 0 && x[|x| - 1] == n
    ensures Witnessed(r, ps, n)
  {
    assert Witness(r, ps, x, n);
  }

  lemma EmptyTracks(r: Region, ps: seq<Pick>, n: nat)
    requires n < |ps| && r.count == 0
    ensures HasHistory(r, ps, n)
  {
    assert Tracks(r, ps, [], n);
  }

  lemma OneTracks(r: Region, ps: seq<Pick>, n: nat)
    requires n < |ps| && r.count == 1 <= |r.slots| && r.slots[0] == ps[n].station && r.lastTime == ps[n].time
    requires ps[n].strength > r.strength && ps[n].station in r.stations
    ensures HasHistory(r, ps, n)
  {
    assert Tracks(r, ps, [n], n);
  }

  lemma MatchedTracks(r: Region, ps: seq<Pick>, n: nat)
    requires RegionOk(r) && HasHistory(r, ps, n) && n < |ps| && ps[n].station in r.stations
    ensures HasHistory(Matched(r, ps[n]).region, ps, n)
    ensures Matched(r, ps[n]).fired ==> Witnessed(r, ps, n)
  {
    hide Listed, Tracks, Based, Picked, Witnessed, HasHistory, Distinct;
    var p := ps[n];
    var s := Matched(r, p).region;
    MatchedOk(r, p);
    MatchedLimits(r, p);
    if p.strength > r.strength {
      if p.time - r.lastTime < r.maxTime {
        if !Listed(r, p.station) {
          ListGrows(r, ps, n, s);
        }
      } else {
        OneTracks(s, ps, n);
      }
    }
  }

  lemma ListGrows(r: Region, ps: seq<Pick>, n: nat, s: Region)
    requires RegionOk(r) && HasHistory(r, ps, n) && n < |ps| && ps[n].station in r.stations && r.count < MAX_ALARM_STN
    requires ps[n].strength > r.strength && ps[n].time - r.lastTime < r.maxTime && !Listed(r, ps[n].station)
    requires s == Matched(r, ps[n]).region
    ensures HasHistory(s, ps, n)
    ensures Matched(r, ps[n]).fired ==> Witnessed(r, ps, n)
  {
    hide Based, Picked, Witnessed, Distinct;
    var w :| Tracks(r, ps, w, n);
    Joins(r, ps, w, n);
    if r.count + 1 >= r.thresh {
      Fires(r, ps, w + [n], n, r.lastTime);
      EmptyTracks(s, ps, n);
    } else {
      JoinedTracks(r, ps, w, n, s);
    }
  }

  lemma {:induction false} ScannedTracks(r: Region, ps: seq<Pick>, n: nat, j: nat)
    requires n < |ps| && RegionOk(r) && HasHistory(r, ps, n)
    ensures var m := Scanned(r, ps[n], j);
      RegionOk(m.region) && SameLimits(r, m.region) && HasHistory(m.region, ps, n) && (m.fired ==> Witnessed(r, ps, n))
    decreases |r.stations| - j
  {
    hide RegionOk, HasHistory, Matched, Witnessed;
    if j < |r.stations| {
      if r.stations[j] != ps[n].station {
        ScannedTracks(r, ps, n, j + 1);
      } else {
        MatchedOk(r, ps[n]);
        MatchedLimits(r, ps[n]);
        MatchedTracks(r, ps, n);
        var m := Matched(r, ps[n]);
        if !m.stop {
          ScannedTracks(m.region, ps, n, j + 1);
          SameWitness(m.region, r, ps, n);
        }
      }
    }
  }

  lemma MatchedLimits(r: Region, p: Pick)
    ensures SameLimits(r, Matched(r, p).region)
  {}

  lemma SameWitness(r: Region, s: Region, ps: seq<Pick>, n: nat)
    requires SameLimits(r, s)
    ensures Witnessed(r, ps, n) ==> Witnessed(s, ps, n)
  {
    if w :| Witness(r, ps, w, n) {
      var base :| Based(r, ps, w, n, base);
      assert Based(s, ps, w, n, base);
      assert Witness(s, ps, w, n);
    }
  }

  /** Each region is sound and has a history. */
  ghost predicate AllOk(rs: seq<Region>, ps: seq<Pick>, n: nat) {
    forall i :: 0 <= i < |rs| ==> RegionOk(rs[i]) && HasHistory(rs[i], ps, n)
  }

  lemma {:induction false} CheckedTracks(rs: seq<Region>, ps: seq<Pick>, n: nat, i: nat)
    requires n < |ps| && AllOk(rs, ps, n)
    ensures var o := Checked(rs, ps[n], i);
      && AllOk(o.regions, ps, n)
      && (forall k :: 0 <= k < |rs| ==> SameLimits(rs[k], o.regions[k]))
      && forall k :: k in o.fired ==> i <= k < |rs| && Witnessed(rs[k], ps, n)
    decreases |rs| - i
  {
    hide RegionOk, HasHistory, Scanned, Witnessed;
    if i < |rs| {
      ScannedTracks(rs[i], ps, n, 0);
      var m := Scanned(rs[i], ps[n], 0);
      var next := rs[i := m.region];
      if !m.stop {
        CheckedTracks(next, ps, n, i + 1);
      }
    }
  }

  // ----- runs

  function Run(rs: seq<Region>, ps: seq<Pick>, n: nat): (r: seq<Region>)
    requires n <= |ps|
    ensures |r| == |rs|
  {
    if n == 0 then rs else Checked(Run(rs, ps, n - 1), ps[n - 1], 0).regions
  }

  predicate Fresh(r: Region) { RegionOk(r) && r.count == 0 }

  /** A region's history is still one when another pick comes in. */
  lemma NextPick(rs: seq<Region>, ps: seq<Pick>, n: nat)
    requires n + 1 < |ps| && AllOk(rs, ps, n)
    ensures AllOk(rs, ps, n + 1)
  {
    hide RegionOk;
    forall i | 0 <= i < |rs|
      ensures HasHistory(rs[i], ps, n + 1)
    {
      var w :| Tracks(rs[i], ps, w, n);
      assert Tracks(rs[i], ps, w, n + 1);
    }
  }

  lemma {:induction false} RunOk(rs: seq<Region>, ps: seq<Pick>, n: nat)
    requires n < |ps| && forall i :: 0 <= i < |rs| ==> Fresh(rs[i])
    ensures AllOk(Run(rs, ps, n), ps, n)
    ensures forall i :: 0 <= i < |rs| ==> SameLimits(rs[i], Run(rs, ps, n)[i])
  {
    hide Checked, RegionOk, HasHistory;
    if n == 0 {
      forall i | 0 <= i < |rs|
        ensures HasHistory(rs[i], ps, n)
      {
        EmptyTracks(rs[i], ps, n);
      }
    } else {
      RunOk(rs, ps, n - 1);
      CheckedTracks(Run(rs, ps, n - 1), ps, n - 1, 0);
      NextPick(Run(rs, ps, n), ps, n - 1);
    }
  }

  /** Over any sequence of picks: an alarm of region `i` at pick `n` rests on exactly as many picks as the
      threshold asks, of distinct stations of the region, each strong enough, within the time limit. */
  lemma {:induction false} AlarmIsWitnessed(rs: seq<Region>, ps: seq<Pick>, n: nat, i: nat)
    requires n < |ps| && forall k :: 0 <= k < |rs| ==> Fresh(rs[k])
    requires i in Checked(Run(rs, ps, n), ps[n], 0).fired
    ensures i < |rs| && Witnessed(rs[i], ps, n)
  {
    hide Checked, RegionOk, HasHistory, Witnessed;
    RunOk(rs, ps, n);
    CheckedTracks(Run(rs, ps, n), ps, n, 0);
    SameWitness(Run(rs, ps, n)[i], rs[i], ps, n);
  }

  /** When the first of the witnesses is not earlier than time zero, all of them lie less than the limit
      after it. */
  lemma WitnessesAreClose(r: Region, ps: seq<Pick>, w: seq<nat>, n: nat)
    requires Witness(r, ps, w, n) && ps[w[0]].time >= 0.0
    ensures forall k :: 1 <= k < |w| ==> ps[w[k]].time - ps[w[0]].time < r.maxTime
  {
    var base :| Based(r, ps, w, n, base);
  }

  /** Without that premise they need not: the list of an untouched region does not note a first time
      that is earlier than its limit. */
  lemma EarlyPicksCount()
    ensures var ps := [Pick("A", 2.0, -100.0), Pick("B", 2.0, 5.0)];
      var r := Region(["A", "B"], 2, 1.0, 10.0, seq(MAX_ALARM_STN, _ => ""), 0, 0.0);
      && Fresh(r) && 0 in Checked(Run([r], ps, 1), ps[1], 0).fired && ps[1].time - ps[0].time >= r.maxTime
  {
    var ps := [Pick("A", 2.0, -100.0), Pick("B", 2.0, 5.0)];
    var r := Region(["A", "B"], 2, 1.0, 10.0, seq(MAX_ALARM_STN, _ => ""), 0, 0.0);
    var s := Matched(r, ps[0]).region;
    assert s == r.(slots := r.slots[0 := "A"], count := 1);
    assert !Listed(s, "B");
    assert Scanned(r, ps[0], 2) == Result(r, false, false);
    assert Scanned(s, ps[0], 1) == Result(s, false, false);
    assert Scanned(r, ps[0], 0).region == s;
    assert Run([r], ps, 0) == [r];
    assert Checked([s], ps[0], 1) == Outcome([s], {});
    assert [r][0 := s] == [s];
    assert Run([r], ps, 1) == [s];
    assert Matched(s, ps[1]).fired;
    assert Scanned(s, ps[1], 1).fired;
    assert Scanned(s, ps[1], 0).fired;
  }

  /** Pick `q` after pick `p` raises the alarm of a region. */
  ghost predicate PairFires(r: Region, p: Pick, q: Pick) {
    0 in Checked(Run([r], [p, q], 1), q, 0).fired
  }

  /** What a match decides stands when the rest of the station list has been scanned. */
  lemma {:induction false} ScanFollowsMatch(r: Region, p: Pick, j: nat)
    requires j < |r.stations| && p.station in r.stations[j..]
    ensures Matched(r, p).fired ==> Scanned(r, p, j).fired
    ensures var m := Matched(r, p).region;
      Matched(m, p) == Result(m, false, true) ==> Scanned(r, p, j) == Result(m, Matched(r, p).fired, Scanned(r, p, j).stop)
    decreases |r.stations| - j
  {
    hide Matched;
    assert r.stations[j..] == [r.stations[j]] + r.stations[j + 1..];
    if r.stations[j] != p.station {
      ScanFollowsMatch(r, p, j + 1);
    } else {
      MatchedLimits(r, p);
      var m := Matched(r, p).region;
      if Matched(m, p) == Result(m, false, true) {
        ScanStays(m, p, j + 1);
      }
    }
  }

  /** A station that is already listed changes nothing. */
  lemma {:induction false} ScanStays(m: Region, p: Pick, j: nat)
    requires Matched(m, p) == Result(m, false, true)
    ensures Scanned(m, p, j) == Result(m, false, Scanned(m, p, j).stop)
    decreases |m.stations| - j
  {
    hide Matched;
    if j < |m.stations| && m.stations[j] != p.station {
      ScanStays(m, p, j + 1);
    }
  }

  /** A strong first pick before time zero, and a strong second one of another station at the limit. */
  lemma PairBeforeZero(r: Region, p: Pick, q: Pick)
    requires Fresh(r) && r.thresh == 2 && r.maxTime > 0.0 && p.time < 0.0 && q.time == p.time + r.maxTime
    requires p.strength > r.strength && p.station in r.stations
    requires q.strength > r.strength && q.station in r.stations && q.station != p.station
    ensures PairFires(r, p, q)
  {
    hide Scanned, Checked, Run;
    var m := Matched(r, p);
    var s := m.region;
    MatchedOk(r, p);
    MatchedOk(s, q);
    assert s.slots[0] == p.station;
    ScanFollowsMatch(r, p, 0);
    OneRegion(r, p);
    OneRun(r, p, q, s);
    ScanFollowsMatch(s, q, 0);
    OneRegion(s, q);
  }

  lemma OneRun(r: Region, p: Pick, q: Pick, s: Region)
    requires Checked([r], p, 0).regions == [s]
    ensures Run([r], [p, q], 1) == [s]
  {
    hide Checked;
    assert Run([r], [p, q], 0) == [r];
  }

  /** Exactly when a pick can be joined by one that lies outside the limit: when it is earlier than time
      zero.  Pick times are seconds since 1970. */
  lemma {:induction false} FarPairIff(r: Region, p: Pick, other: string)
    requires Fresh(r) && r.thresh == 2 && r.maxTime > 0.0 && p.strength > r.strength && p.station in r.stations
    requires other in r.stations && other != p.station
    ensures (exists q :: PairFires(r, p, q) && q.time - p.time >= r.maxTime) <==> p.time < 0.0
  {
    hide PairFires, Fresh;
    if p.time < 0.0 {
      var q := Pick(other, p.strength, p.time + r.maxTime);
      PairBeforeZero(r, p, q);
    } else {
      forall q | PairFires(r, p, q)
        ensures q.time - p.time < r.maxTime
      {
        PairIsClose(r, p, q);
      }
    }
  }

  lemma PairIsClose(r: Region, p: Pick, q: Pick)
    requires Fresh(r) && r.thresh == 2 && PairFires(r, p, q) && p.time >= 0.0
    ensures q.time - p.time < r.maxTime
  {
    hide Run, Checked, Fresh;
    var ps := [p, q];
    AlarmIsWitnessed([r], ps, 1, 0);
    var w :| Witness(r, ps, w, 1);
    assert w[0] == 0 && w[1] == 1;
    WitnessesAreClose(r, ps, w, 1);
  }

  // ----- and enough witnesses raise an alarm

  /** A station that a region lists once is matched once. */
  lemma {:induction false} ScannedOnce(r: Region, p: Pick, j: nat)
    requires Distinct(r.stations)
    ensures Scanned(r, p, j) ==
      if j < |r.stations| && p.station in r.stations[j..] then Matched(r, p) else Result(r, false, false)
    decreases |r.stations| - j
  {
    hide Matched;
    if j < |r.stations| {
      assert r.stations[j..] == [r.stations[j]] + r.stations[j + 1..];
      if r.stations[j] == p.station {
        MatchedLimits(r, p);
        var m := Matched(r, p);
        ScannedOnce(m.region, p, j + 1);
      } else {
        ScannedOnce(r, p, j + 1);
      }
    }
  }

  /** Strong picks of distinct stations of the region, all within the time limit after the first one, for
      which the list that the region then holds is out of date. */
  predicate Burst(r: Region, ps: seq<Pick>) {
    && (forall k :: 0 <= k < |ps| ==> ps[k].station in r.stations && ps[k].strength > r.strength)
    && (forall a, b :: 0 <= a < b < |ps| ==> ps[a].station != ps[b].station)
    && (forall k :: 1 <= k < |ps| ==> ps[k].time - ps[0].time < r.maxTime)
    && (|ps| > 0 ==> ps[0].time - r.lastTime >= r.maxTime)
  }

  /** The list after `n` picks of a burst: the old one, or the stations of the burst. */
  predicate ListOf(r: Region, ps: seq<Pick>, n: nat, s: Region) {
    && SameLimits(r, s) && RegionOk(s) && n <= |ps|
    && if n == 0 then s == r
       else s.count == n && s.lastTime == ps[0].time && forall k :: 0 <= k < n ==> s.slots[k] == ps[k].station
  }

  lemma BurstStep(r: Region, ps: seq<Pick>, n: nat, s: Region)
    requires Burst(r, ps) && n < |ps| && ListOf(r, ps, n, s)
    ensures var m := Matched(s, ps[n]);
      !m.stop && (m.fired <==> n > 0 && n + 1 >= r.thresh) && (!m.fired ==> ListOf(r, ps, n + 1, m.region))
  {
    MatchedOk(s, ps[n]);
    forall k | 0 <= k < n
      ensures s.slots[k] != ps[n].station
    {}
    hide RegionOk;
  }

  lemma OneRegion(r: Region, p: Pick)
    ensures var n := Scanned(r, p, 0); Checked([r], p, 0) == Outcome([n.region], if n.fired then {0} else {})
  {
    hide Scanned;
    var n := Scanned(r, p, 0);
    assert [r][0 := n.region] == [n.region];
    assert Checked([n.region], p, 1) == Outcome([n.region], {});
  }

  lemma {:induction false} BurstRun(r: Region, ps: seq<Pick>, n: nat) returns (s: Region)
    requires RegionOk(r) && Distinct(r.stations) && Burst(r, ps) && n < r.thresh && n <= |ps|
    ensures Run([r], ps, n) == [s] && ListOf(r, ps, n, s)
  {
    hide RegionOk, Matched, Scanned, Checked;
    if n == 0 {
      OldList(r, ps);
      s := r;
    } else {
      var q := BurstRun(r, ps, n - 1);
      OneRegion(q, ps[n - 1]);
      ScannedOnce(q, ps[n - 1], 0);
      BurstStep(r, ps, n - 1, q);
      s := Matched(q, ps[n - 1]).region;
    }
  }

  lemma OldList(r: Region, ps: seq<Pick>)
    requires RegionOk(r)
    ensures ListOf(r, ps, 0, r)
  {}

  /** Whatever list was there before: the pick that completes the threshold raises the alarm. */
  lemma {:induction false} BurstRaisesAlarm(r: Region, ps: seq<Pick>)
    requires RegionOk(r) && Distinct(r.stations) && Burst(r, ps) && |ps| == r.thresh
    ensures Checked(Run([r], ps, |ps| - 1), ps[|ps| - 1], 0).fired == {0}
  {
    hide Matched, Scanned, Checked, Run;
    var n := |ps| - 1;
    var s := BurstRun(r, ps, n);
    OneRegion(s, ps[n]);
    ScannedOnce(s, ps[n], 0);
    BurstStep(r, ps, n, s);
  }

  // ----- exactly when the alarm is raised

  /** A pick that counts for the region. */
  predicate Counts(r: Region, p: Pick) { p.strength > r.strength && p.station in r.stations }

  /** The stations on the list, and those of the first `n` picks that count. */
  function Joined(r: Region, ps: seq<Pick>, n: nat): set<string>
    requires r.count <= |r.slots| && n <= |ps|
  {
    (set k | 0 <= k < r.count :: r.slots[k]) + set k | 0 <= k < n && Counts(r, ps[k]) :: ps[k].station
  }

  /** No pick that counts comes too late for the list. */
  predicate InTime(r: Region, ps: seq<Pick>) {
    forall k :: 0 <= k < |ps| && Counts(r, ps[k]) ==> ps[k].time - r.lastTime < r.maxTime
  }

  /** The region after some picks that came in time and were not enough. */
  ghost predicate Gathered(r: Region, ps: seq<Pick>, n: nat, s: Region)
    requires r.count <= |r.slots| && n <= |ps|
  {
    RegionOk(s) && SameLimits(r, s) && s.lastTime == r.lastTime && Elements(s.slots[..s.count]) == Joined(r, ps, n)
  }

  lemma ListedIff(s: Region, x: string)
    requires RegionOk(s)
    ensures Listed(s, x) <==> x in Elements(s.slots[..s.count])
    ensures |Elements(s.slots[..s.count])| == s.count
  {
    ElementsSize(s.slots[..s.count]);
    if Listed(s, x) {
      var k :| 0 <= k < s.count && s.slots[k] == x;
      assert s.slots[..s.count][k] == x;
    }
  }

  /** What a pick in time makes of the list. */
  lemma MatchInTime(s: Region, p: Pick)
    requires RegionOk(s) && (Counts(s, p) ==> p.time - s.lastTime < s.maxTime)
    ensures var m := if p.station in s.stations then Matched(s, p) else Result(s, false, false);
      if !Counts(s, p) || Listed(s, p.station) then m.region == s && !m.fired
      else
        var t := s.(slots := m.region.slots, count := s.count + 1);
        && |t.slots| == |s.slots| && t.count <= |t.slots| && m.region.slots == s.slots[s.count := p.station]
        && (m.fired <==> t.count >= s.thresh)
        && m.region == if m.fired then t.(count := 0, lastTime := 0.0) else t
    ensures p.station in s.stations ==> RegionOk(Matched(s, p).region)
  {
    if p.station in s.stations {
      MatchedOk(s, p);
    }
    hide Distinct;
  }

  /** One pick for a list, in its terms. */
  lemma GatherStep(r: Region, ps: seq<Pick>, n: nat, s: Region)
    requires RegionOk(r) && n < |ps| && InTime(r, ps) && Gathered(r, ps, n, s)
    ensures var m := if ps[n].station in s.stations then Matched(s, ps[n]) else Result(s, false, false);
      && (m.fired <==> |Joined(r, ps, n + 1)| >= r.thresh)
      && if m.fired then m.region == s.(slots := m.region.slots, count := 0, lastTime := 0.0)
         else Gathered(r, ps, n + 1, m.region)
  {
    var p := ps[n];
    assert s.count < s.thresh == r.thresh;
    JoinedStep(r, ps, n);
    ListedIff(s, p.station);
    MatchInTime(s, p);
    hide RegionOk, Joined, Elements, Listed, Matched;
    if Counts(r, p) {
      if Listed(s, p.station) {
        assert Joined(r, ps, n) + {p.station} == Joined(r, ps, n);
      } else {
        Appended(s.slots, s.count, p.station);
      }
    }
  }

  lemma JoinedStep(r: Region, ps: seq<Pick>, n: nat)
    requires r.count <= |r.slots| && n < |ps|
    ensures Joined(r, ps, n + 1) == Joined(r, ps, n) + if Counts(r, ps[n]) then {ps[n].station} else {}
  {}

  lemma Appended(slots: seq<string>, count: nat, x: string)
    requires count < |slots|
    ensures Elements(slots[count := x][..count + 1]) == Elements(slots[..count]) + {x}
  {
    assert slots[count := x][..count + 1] == slots[..count] + [x];
  }

  lemma {:induction false} GatherRun(r: Region, ps: seq<Pick>, n: nat) returns (s: Region)
    requires RegionOk(r) && Distinct(r.stations) && InTime(r, ps) && n <= |ps| && |Joined(r, ps, n)| < r.thresh
    ensures Run([r], ps, n) == [s] && Gathered(r, ps, n, s)
  {
    hide Matched, Scanned, Checked, RegionOk, Joined, InTime, Distinct;
    if n == 0 {
      NothingJoined(r, ps);
      s := r;
    } else {
      JoinedGrows(r, ps, n - 1);
      var q := GatherRun(r, ps, n - 1);
      GatherStep(r, ps, n - 1, q);
      OneRegion(q, ps[n - 1]);
      ScannedOnce(q, ps[n - 1], 0);
      s := Scanned(q, ps[n - 1], 0).region;
    }
  }

  lemma JoinedGrows(r: Region, ps: seq<Pick>, n: nat)
    requires RegionOk(r) && n < |ps|
    ensures |Joined(r, ps, n)| <= |Joined(r, ps, n + 1)|
  {
    SubsetSize(Joined(r, ps, n), Joined(r, ps, n + 1));
  }

  lemma NothingJoined(r: Region, ps: seq<Pick>)
    requires RegionOk(r)
    ensures Gathered(r, ps, 0, r) && |Joined(r, ps, 0)| < r.thresh
  {
    ListedIff(r, "");
    assert Joined(r, ps, 0) == Elements(r.slots[..r.count]);
  }

  /** From any list, and whatever weak, foreign or repeated picks come between: as long as the picks that
      count are in time, the alarm is raised at the pick that brings the stations up to the threshold, and
      the list is then empty. */
  lemma {:induction false} AlarmIff(r: Region, ps: seq<Pick>, n: nat)
    requires RegionOk(r) && Distinct(r.stations) && InTime(r, ps) && n < |ps| && |Joined(r, ps, n)| < r.thresh
    ensures Checked(Run([r], ps, n), ps[n], 0).fired == if |Joined(r, ps, n + 1)| >= r.thresh then {0} else {}
    ensures |Joined(r, ps, n + 1)| >= r.thresh ==>
      var s := Run([r], ps, n + 1)[0]; SameLimits(r, s) && s.count == 0 && s.lastTime == 0.0
  {
    hide Matched, Scanned, Checked, RegionOk, Joined;
    var s := GatherRun(r, ps, n);
    GatherStep(r, ps, n, s);
    OneRegion(s, ps[n]);
    ScannedOnce(s, ps[n], 0);
  }

  /** A pick that counts and comes too late for the list starts a new one. */
  lemma LatePickStartsList(r: Region, p: Pick)
    requires RegionOk(r) && Distinct(r.stations) && Counts(r, p) && p.time - r.lastTime >= r.maxTime
    ensures var o := Checked([r], p, 0);
      && o.fired == {} && RegionOk(o.regions[0]) && SameLimits(r, o.regions[0])
      && o.regions[0].lastTime == p.time && Joined(o.regions[0], [], 0) == {p.station}
  {
    MatchedOk(r, p);
    OneRegion(r, p);
    ScannedOnce(r, p, 0);
    hide RegionOk, Scanned, Checked;
    var s := Matched(r, p).region;
    assert s.slots[0] == p.station;
  }

  /** The pick counts for the region, in time, but is on its list already. */
  predicate Repeats(r: Region, p: Pick) {
    && Counts(r, p) && p.time - r.lastTime < r.maxTime
    && exists k :: 0 <= k < r.count <= |r.slots| && r.slots[k] == p.station
  }

  /** Several regions are served in turn, each as if it were alone, up to the first that has the pick on its
      list already; the others then miss the pick. */
  lemma {:induction false} RegionsInTurn(rs: seq<Region>, p: Pick, i: nat, from: nat)
    requires from <= i < |rs| && forall k :: 0 <= k < |rs| ==> RegionOk(rs[k]) && Distinct(rs[k].stations)
    ensures var o, alone := Checked(rs, p, from), Checked([rs[i]], p, 0);
      if exists k :: from <= k < i && Repeats(rs[k], p) then o.regions[i] == rs[i] && i !in o.fired
      else o.regions[i] == alone.regions[0] && (i in o.fired <==> 0 in alone.fired)
    decreases |rs| - from
  {
    hide RegionOk, Distinct, Scanned, Repeats;
    var m := Scanned(rs[from], p, 0);
    var next := rs[from := m.region];
    StopsIff(rs[from], p);
    OneRegion(rs[i], p);
    FiredFrom(next, p, from + 1);
    if !m.stop && from < i {
      RegionsInTurn(next, p, i, from + 1);
      forall k | from + 1 <= k < i
        ensures Repeats(next[k], p) <==> Repeats(rs[k], p)
      {
        assert next[k] == rs[k];
      }
    } else if !m.stop {
      EarlierStay(next, p, from + 1, i);
    }
  }

  lemma StopsIff(r: Region, p: Pick)
    requires RegionOk(r) && Distinct(r.stations)
    ensures var m := Scanned(r, p, 0);
      (m.stop <==> Repeats(r, p)) && (m.stop ==> m.region == r && !m.fired)
    ensures RegionOk(Scanned(r, p, 0).region) && Scanned(r, p, 0).region.stations == r.stations
  {
    ScannedOnce(r, p, 0);
    if p.station in r.stations {
      MatchedOk(r, p);
    }
    hide Scanned;
  }

  lemma {:induction false} FiredFrom(rs: seq<Region>, p: Pick, from: nat)
    ensures forall k :: k in Checked(rs, p, from).fired ==> from <= k < |rs|
    decreases |rs| - from
  {
    hide Scanned;
    if from < |rs| {
      FiredFrom(rs[from := Scanned(rs[from], p, 0).region], p, from + 1);
    }
  }

  lemma {:induction false} EarlierStay(rs: seq<Region>, p: Pick, from: nat, i: nat)
    requires i < from && i < |rs|
    ensures Checked(rs, p, from).regions[i] == rs[i]
    decreases |rs| - from
  {
    hide Scanned;
    if from < |rs| {
      EarlierStay(rs[from := Scanned(rs[from], p, 0).region], p, from + 1, i);
    }
  }

  // ----- the loops

  class Alarms {
    var pAS: seq<Region>

    ghost predicate Valid()
      reads this
    {
      forall i :: 0 <= i < |pAS| ==> RegionOk(pAS[i])
    }

    /** A pick of a station of region `i`. */
    method MatchPick(i: nat, p: Pick) returns (fired: bool, stop: bool)
      requires Valid() && i < |pAS| && p.station in pAS[i].stations
      modifies this
      ensures Valid() && var m := Matched(old(pAS)[i], p); pAS == old(pAS)[i := m.region] && fired == m.fired && stop == m.stop
    {
      fired, stop := false, false;
      ghost var r := pAS[i];
      MatchedOk(r, p);
      if p.strength > pAS[i].strength {
        if p.time - pAS[i].lastTime < pAS[i].maxTime {
          var k := 0;
          while k < pAS[i].count
            invariant 0 <= k <= r.count && pAS == old(pAS) && forall l :: 0 <= l < k ==> r.slots[l] != p.station
          {
            if pAS[i].slots[k] == p.station {
              return false, true;
            }
            k := k + 1;
          }
          var n := pAS[i].count;
          pAS := pAS[i := pAS[i].(slots := pAS[i].slots[n := p.station])];
          pAS := pAS[i := pAS[i].(count := n + 1)];
          if pAS[i].count >= pAS[i].thresh {
            fired := true;
            pAS := pAS[i := pAS[i].(count := 0, lastTime := 0.0)];
          }
        } else {
          pAS := pAS[i := pAS[i].(slots := pAS[i].slots[0 := p.station], count := 1, lastTime := p.time)];
        }
      }
    }

    /** The loop over the stations of region `i`. */
    method ScanRegion(i: nat, p: Pick) returns (fired: bool, stop: bool)
      requires Valid() && i < |pAS|
      modifies this
      ensures Valid()
      ensures var m := Scanned(old(pAS)[i], p, 0); pAS == old(pAS)[i := m.region] && fired == m.fired && stop == m.stop
    {
      hide RegionOk, Matched;
      fired, stop := false, false;
      ghost var r := pAS[i];
      var j := 0;
      while j < |pAS[i].stations|
        invariant 0 <= j && Valid() && |pAS| == |old(pAS)| && pAS == old(pAS)[i := pAS[i]]
        invariant pAS[i].stations == r.stations && !stop
        invariant var n := Scanned(pAS[i], p, j); Scanned(r, p, 0) == n.(fired := fired || n.fired)
      {
        if pAS[i].stations[j] == p.station {
          ghost var s := pAS[i];
          MatchedLimits(s, p);
          var f, t := MatchPick(i, p);
          fired := fired || f;
          if t {
            stop := true;
            return;
          }
        }
        j := j + 1;
      }
    }

    /** The loop over the regions. */
    method CheckForAlarm(p: Pick) returns (fired: set<nat>)
      requires Valid()
      modifies this
      ensures Valid() && Outcome(pAS, fired) == Checked(old(pAS), p, 0)
    {
      hide Scanned, RegionOk;
      fired := {};
      var i := 0;
      while i < |pAS|
        invariant 0 <= i && Valid()
        invariant var o := Checked(pAS, p, i); Checked(old(pAS), p, 0) == o.(fired := fired + o.fired)
      {
        ghost var before, o := pAS, Checked(pAS, p, i);
        var f, stop := ScanRegion(i, p);
        ghost var earlier := fired;
        if f {
          fired := fired + {i};
        }
        if stop {
          return;
        }
        i := i + 1;
        assert fired + Checked(pAS, p, i).fired == earlier + o.fired;
      }
    }
  }
}
