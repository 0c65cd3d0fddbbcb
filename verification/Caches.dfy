// The two in-place arrays of the driver state: the scan cache, keyed by BSSID,
// and the list of stations joined to the access point.
module Caches {
  import opened Lists
  import opened Words

  type Mac = seq<uint8>

  // -- Lists -------------------------------------------------------------------

  ghost function Members(s: seq<Mac>): set<Mac> {
    set m | m in s
  }

  lemma {:induction false} MembersCount(s: seq<Mac>)
    requires Distinct(s)
    ensures |Members(s)| == |s|
    decreases |s|
  {
    if s != [] {
      var n := |s| - 1;
      MembersCount(s[..n]);
      assert s == s[..n] + [s[n]];
      assert Members(s) == Members(s[..n]) + {s[n]};
    }
  }

  // -- The scan cache ----------------------------------------------------------

  // A result: the access point it is for, and what was heard of it.
  datatype Heard = Heard(bssid: Mac, details: seq<uint8>)

  // Where the cache holds a result for the access point; past the end if nowhere.
  ghost predicate IsSlot(cache: seq<Heard>, bssid: Mac, i: nat) {
    && i <= |cache| && (i < |cache| ==> cache[i].bssid == bssid)
    && forall k :: 0 <= k < i ==> cache[k].bssid != bssid
  }

  // The access points heard, in the order they were first heard.
  function FirstSeen(rs: seq<Heard>): seq<Mac>
    decreases |rs|
  {
    if rs == [] then [] else
      var n := |rs| - 1;
      var s := FirstSeen(rs[..n]);
      if rs[n].bssid in s then s else s + [rs[n].bssid]
  }

  lemma {:induction false} FirstSeenIsDistinct(rs: seq<Heard>)
    ensures Distinct(FirstSeen(rs))
    decreases |rs|
  {
    if rs != [] { FirstSeenIsDistinct(rs[..|rs| - 1]); }
  }

  // Exactly the access points heard.
  lemma {:induction false} FirstSeenIsComplete(rs: seq<Heard>, bssid: Mac)
    ensures bssid in FirstSeen(rs) <==> exists k :: 0 <= k < |rs| && rs[k].bssid == bssid
    decreases |rs|
  {
    if rs != [] {
      var n := |rs| - 1;
      FirstSeenIsComplete(rs[..n], bssid);
      if bssid in FirstSeen(rs[..n]) {
        var k :| 0 <= k < n && rs[..n][k].bssid == bssid;
        assert rs[k].bssid == bssid;
      } else {
        assert forall k :: 0 <= k < n ==> rs[..n][k] == rs[k];
        assert rs[n].bssid == bssid ==> bssid in FirstSeen(rs);
      }
    }
  }

  // The last thing heard of an access point.
  function Latest(rs: seq<Heard>, bssid: Mac): Heard
    requires bssid in FirstSeen(rs)
    decreases |rs|
  {
    var n := |rs| - 1;
    if rs[n].bssid == bssid then rs[n] else Latest(rs[..n], bssid)
  }

  // One comes before another in that order exactly as it was heard of first.
  lemma {:induction false} FirstSeenIsInOrder(rs: seq<Heard>, i: nat, j: nat)
    requires i < j < |FirstSeen(rs)|
    ensures exists k :: 0 <= k < |rs| && rs[k].bssid == FirstSeen(rs)[i]
                        && forall l :: 0 <= l <= k ==> rs[l].bssid != FirstSeen(rs)[j]
    decreases |rs|
  {
    var n := |rs| - 1;
    var s := FirstSeen(rs[..n]);
    var k;
    if j < |s| {
      FirstSeenIsInOrder(rs[..n], i, j);
      k :| 0 <= k < n && rs[..n][k].bssid == s[i] && forall l :: 0 <= l <= k ==> rs[..n][l].bssid != s[j];
    } else {
      FirstSeenIsComplete(rs[..n], s[i]);
      FirstSeenIsComplete(rs[..n], rs[n].bssid);
      k :| 0 <= k < n && rs[..n][k].bssid == s[i];
    }
    assert forall l :: 0 <= l < n ==> rs[..n][l] == rs[l];
  }

  lemma {:induction false} LatestIsTheLastHeard(rs: seq<Heard>, bssid: Mac)
    requires bssid in FirstSeen(rs)
    ensures exists k :: 0 <= k < |rs| && rs[k].bssid == bssid && rs[k] == Latest(rs, bssid)
                        && forall l :: k < l < |rs| ==> rs[l].bssid != bssid
    decreases |rs|
  {
    var n := |rs| - 1;
    if rs[n].bssid != bssid {
      LatestIsTheLastHeard(rs[..n], bssid);
      assert forall l :: 0 <= l < n ==> rs[..n][l] == rs[l];
      var k :| 0 <= k < n && rs[..n][k].bssid == bssid && rs[..n][k] == Latest(rs[..n], bssid)
               && forall l :: k < l < n ==> rs[..n][l].bssid != bssid;
      assert rs[k].bssid == bssid;
    } else {
      assert rs[n].bssid == bssid;
    }
  }

  // What the cache should hold after those results.
  ghost predicate Caching(cache: seq<Heard>, rs: seq<Heard>, max: nat) {
    var s := FirstSeen(rs);
    && |cache| == (if |s| < max then |s| else max)
    && forall k :: 0 <= k < |cache| ==> cache[k] == Latest(rs, s[k]) && cache[k].bssid == s[k]
  }

  function Added(cache: seq<Heard>, r: Heard, i: nat, max: nat): seq<Heard> {
    if i < |cache| then cache[i := r] else if |cache| < max then cache + [r] else cache
  }

  // One more result leaves the cache as it should be.
  lemma AddKeepsCaching(cache: seq<Heard>, rs: seq<Heard>, r: Heard, i: nat, max: nat)
    requires Caching(cache, rs, max) && IsSlot(cache, r.bssid, i)
    ensures Caching(Added(cache, r, i, max), rs + [r], max)
  {
    var all, s := rs + [r], FirstSeen(rs);
    assert all[..|rs|] == rs;
    FirstSeenIsDistinct(rs);
    var now, t := Added(cache, r, i, max), FirstSeen(all);
    forall k | 0 <= k < |now| ensures now[k] == Latest(all, t[k]) && now[k].bssid == t[k] {
      if i < |cache| {
        assert s[i] == r.bssid;
        assert t == s;
      }
    }
  }

  class ScanCache {
    var cache: array?<Heard>
    var len: nat
    var max: nat
    ghost var heard: seq<Heard>  // since the scan began

    ghost predicate Valid()
      reads this, cache
    {
      && (cache == null ==> len == 0)
      && (cache != null ==> len <= max <= 0xff && max <= cache.Length && Caching(cache[..len], heard, max))
    }

    // mm_halow_scan_cache_add()
    method Add(r: Heard)
      requires Valid()
      modifies this`len, this`heard, cache
      ensures Valid() && (cache != null ==> heard == old(heard) + [r])
    {
      if cache == null {
        return;
      }
      ghost var was, rs := cache[..len], heard;
      heard := rs + [r];
      for i := 0 to len
        invariant forall k :: 0 <= k < i ==> cache[k].bssid != r.bssid
        invariant cache[..len] == was
      {
        if cache[i].bssid == r.bssid {
          AddKeepsCaching(was, rs, r, i, max);
          cache[i] := r;
          assert cache[..len] == was[i := r];
          return;
        }
      }
      AddKeepsCaching(was, rs, r, len, max);
      if len < max {
        cache[len] := r;
        len := len + 1;
        assert cache[..len] == was + [r];
      }
    }

    // A new scan begins: mm_halow_wifi_scan_cached()
    method Restart()
      requires Valid()
      modifies this`len, this`heard
      ensures Valid() && heard == [] && len == 0
    {
      len, heard := 0, [];
      if cache != null {
        assert cache[..0] == [];
      }
    }

    // The copy out at the end of a scan.
    method Copy(out: array<Heard>, room: nat) returns (n: nat)
      requires Valid() && cache != null && room <= out.Length && out != cache
      modifies out
      ensures n <= room && n == (if len < room then len else room)
      ensures out[..n] == cache[..n] && out[n..] == old(out[n..])
      ensures forall k :: 0 <= k < n ==> out[k] == Latest(heard, FirstSeen(heard)[k])
    {
      n := if len < room then len else room;
      for i := 0 to n
        invariant forall k :: 0 <= k < i ==> out[k] == cache[k]
        invariant forall k :: i <= k < out.Length ==> out[k] == old(out[k])
      {
        out[i] := cache[i];
      }
      assert out[..n] == cache[..n] && out[n..] == old(out[n..]);
      assert forall k :: 0 <= k < n ==> out[k] == out[..n][k] == cache[..n][k] == cache[..len][k];
    }
  }

  // -- The station list --------------------------------------------------------

  // A station is authorized, or is not (any longer).
  datatype Event = Event(mac: Mac, authorized: bool)

  function Without(s: seq<Mac>, i: nat): seq<Mac>
    requires i < |s|
  {
    s[..i] + s[i + 1..]
  }

  function Index(s: seq<Mac>, m: Mac): (i: nat)
    ensures i <= |s| && (i < |s| ==> s[i] == m) && (i < |s| <==> m in s)
    ensures forall k :: 0 <= k < i ==> s[k] != m
  {
    if s == [] || s[0] == m then 0 else 1 + Index(s[1..], m)
  }

  // What one event does to the list.
  function Noted(s: seq<Mac>, e: Event, max: nat): seq<Mac> {
    var i := Index(s, e.mac);
    if i < |s| then if e.authorized then s else Without(s, i)
    else if e.authorized && |s| < max then s + [e.mac] else s
  }

  function Listed(es: seq<Event>, max: nat): seq<Mac>
    decreases |es|
  {
    if es == [] then [] else Noted(Listed(es[..|es| - 1], max), es[|es| - 1], max)
  }

  // Authorized: by its last event.
  predicate Authorized(es: seq<Event>, m: Mac)
    decreases |es|
  {
    es != [] &&
    var n := |es| - 1;
    if es[n].mac == m then es[n].authorized else Authorized(es[..n], m)
  }

  // The event that authorized it: the first after it was last not.
  function Arrival(es: seq<Event>, m: Mac): (k: nat)
    requires Authorized(es, m)
    ensures k < |es| && es[k] == Event(m, true)
    decreases |es|
  {
    var n := |es| - 1;
    if Authorized(es[..n], m) then Arrival(es[..n], m) else n
  }

  // It was not authorized just before, and nothing has revoked it since.
  lemma {:induction false} ArrivalBeginsTheStay(es: seq<Event>, m: Mac)
    requires Authorized(es, m)
    ensures !Authorized(es[..Arrival(es, m)], m)
    ensures forall l :: Arrival(es, m) <= l < |es| && es[l].mac == m ==> es[l].authorized
    decreases |es|
  {
    var n := |es| - 1;
    if Authorized(es[..n], m) {
      ArrivalBeginsTheStay(es[..n], m);
      assert es[..n][..Arrival(es, m)] == es[..Arrival(es, m)];
      assert forall l :: 0 <= l < n ==> es[..n][l] == es[l];
    }
  }

  ghost function Joined(es: seq<Event>): (s: set<Mac>)
    ensures forall m :: m in s <==> Authorized(es, m)
    decreases |es|
  {
    if es == [] then {} else
      var n := |es| - 1;
      if es[n].authorized then Joined(es[..n]) + {es[n].mac} else Joined(es[..n]) - {es[n].mac}
  }

  ghost predicate InArrivalOrder(es: seq<Event>, s: seq<Mac>)
    requires forall k :: 0 <= k < |s| ==> Authorized(es, s[k])
  {
    forall i, j :: 0 <= i < j < |s| ==> Arrival(es, s[i]) < Arrival(es, s[j])
  }

  // More stations than the list has room for have never been joined at once.
  ghost predicate NeverOverfull(es: seq<Event>, max: nat) {
    forall k :: 0 <= k <= |es| ==> |Joined(es[..k])| <= max
  }

  ghost predicate Exact(es: seq<Event>, s: seq<Mac>) {
    forall m :: m in s <==> Authorized(es, m)
  }

  // However many join: no duplicates, none that are not joined, never too long.
  lemma {:induction false} ListedIsSound(es: seq<Event>, max: nat)
    ensures Distinct(Listed(es, max)) && |Listed(es, max)| <= max
    ensures forall m :: m in Listed(es, max) ==> Authorized(es, m)
    decreases |es|
  {
    if es != [] {
      var n := |es| - 1;
      var s, e := Listed(es[..n], max), es[n];
      ListedIsSound(es[..n], max);
      var i := Index(s, e.mac);
      if i < |s| && !e.authorized { RemovesOne(s, i); }
    }
  }

  lemma RemovesOne(s: seq<Mac>, i: nat)
    requires Distinct(s) && i < |s|
    ensures Distinct(Without(s, i))
    ensures forall m :: m in Without(s, i) <==> m in s && m != s[i]
  {
    var t := Without(s, i);
    forall m ensures m in t <==> m in s && m != s[i] {
      if m in s && m != s[i] {
        var k := Index(s, m);
        assert t[if k < i then k else k - 1] == m;
      }
    }
  }

  // The last event decides for its own station, and changes nothing for others.
  lemma LastEvent(es: seq<Event>, m: Mac)
    requires es != []
    ensures var n := |es| - 1;
            && (Authorized(es, m) <==> if es[n].mac == m then es[n].authorized else Authorized(es[..n], m))
            && (Authorized(es, m) ==> Arrival(es, m) == if Authorized(es[..n], m) then Arrival(es[..n], m) else n)
  {
  }

  lemma RoomBefore(es: seq<Event>, max: nat)
    requires NeverOverfull(es, max) && es != []
    ensures NeverOverfull(es[..|es| - 1], max) && |Joined(es)| <= max
  {
    hide Joined;
    var b := es[..|es| - 1];
    assert es[..|es|] == es;
    assert forall k :: 0 <= k <= |b| ==> b[..k] == es[..k];
  }

  // While there has always been room, the list is the stations joined, in the
  // order they arrived.
  lemma {:induction false} ListedIsExact(es: seq<Event>, max: nat)
    requires NeverOverfull(es, max)
    ensures Exact(es, Listed(es, max)) && InArrivalOrder(es, Listed(es, max))
    decreases |es|
  {
    hide NeverOverfull, Noted, Arrival, Joined, Distinct;
    if es != [] {
      var before := es[..|es| - 1];
      RoomBefore(es, max);
      ListedIsExact(before, max);
      ListedIsSound(before, max);
      NoteIsExact(es, Listed(before, max), max);
    }
  }

  lemma NoteIsExact(es: seq<Event>, s: seq<Mac>, max: nat)
    requires es != [] && |Joined(es)| <= max && Distinct(s)
    requires var b := es[..|es| - 1]; Exact(b, s) && InArrivalOrder(b, s)
    ensures var t := Noted(s, es[|es| - 1], max); Exact(es, t) && InArrivalOrder(es, t)
  {
    hide Authorized, Arrival, Index, Distinct, Without, Joined;
    var n := |es| - 1;
    var b, e := es[..n], es[n];
    var i, t := Index(s, e.mac), Noted(s, e, max);
    if i < |s| && !e.authorized {
      RemovesOne(s, i);
    } else if i == |s| && e.authorized {
      RoomForOne(es, s, max);
    }
    forall m ensures m in t <==> Authorized(es, m) {
      LastEvent(es, m);
    }
    KeepsOrder(es, s, t, i);
  }

  lemma RoomForOne(es: seq<Event>, s: seq<Mac>, max: nat)
    requires es != [] && |Joined(es)| <= max && Distinct(s) && Exact(es[..|es| - 1], s)
    requires es[|es| - 1].authorized && es[|es| - 1].mac !in s
    ensures |s| < max
  {
    hide Authorized, Distinct;
    var n := |es| - 1;
    assert Members(s) == Joined(es[..n]);
    assert Joined(es) == Members(s) + {es[n].mac};
    MembersCount(s);
  }

  lemma KeepsOrder(es: seq<Event>, s: seq<Mac>, t: seq<Mac>, i: nat)
    requires es != [] && Exact(es[..|es| - 1], s) && Exact(es, t) && InArrivalOrder(es[..|es| - 1], s)
    requires t == s || (i < |s| && t == Without(s, i)) || t == s + [es[|es| - 1].mac]
    requires t == s + [es[|es| - 1].mac] ==> es[|es| - 1].mac !in s
    ensures InArrivalOrder(es, t)
  {
    hide Authorized, Arrival;
    forall j, k | 0 <= j < k < |t| ensures Arrival(es, t[j]) < Arrival(es, t[k]) {
      LastEvent(es, t[j]);
      LastEvent(es, t[k]);
    }
  }

  // The list has been exact all along exactly when there has always been room.
  lemma ListedIsExactIffRoom(es: seq<Event>, max: nat)
    ensures (forall k :: 0 <= k <= |es| ==> Exact(es[..k], Listed(es[..k], max))) <==> NeverOverfull(es, max)
  {
    if NeverOverfull(es, max) {
      forall k | 0 <= k <= |es| ensures Exact(es[..k], Listed(es[..k], max)) {
        assert forall j :: 0 <= j <= k ==> es[..k][..j] == es[..j];
        ListedIsExact(es[..k], max);
      }
    }
    if forall k :: 0 <= k <= |es| ==> Exact(es[..k], Listed(es[..k], max)) {
      forall k | 0 <= k <= |es| ensures |Joined(es[..k])| <= max {
        var s := Listed(es[..k], max);
        ListedIsSound(es[..k], max);
        MembersCount(s);
        assert Members(s) == Joined(es[..k]);
      }
    }
  }

  // A station that finds no room is off the list, joined or not, until it is
  // authorized again: no event of any other station puts it on.
  lemma {:induction false} LeftOutStaysOut(es: seq<Event>, max: nat, b: Mac, fs: seq<Event>)
    requires |Listed(es, max)| == max && b !in Listed(es, max)
    requires forall k | 0 <= k < |fs| :: fs[k].mac != b
    ensures var all := es + [Event(b, true)] + fs; Authorized(all, b) && b !in Listed(all, max)
    decreases |fs|
  {
    hide Index;
    var some := es + [Event(b, true)];
    var all := some + fs;
    if fs == [] {
      assert some[..|es|] == es && all == some;
    } else {
      var n := |fs| - 1;
      assert all[..|all| - 1] == some + fs[..n] && all[|all| - 1] == fs[n];
      LeftOutStaysOut(es, max, b, fs[..n]);
      NotedKeepsOut(Listed(some + fs[..n], max), fs[n], max, b);
    }
  }

  lemma NotedKeepsOut(s: seq<Mac>, e: Event, max: nat, b: Mac)
    requires b !in s && e.mac != b
    ensures b !in Noted(s, e, max)
  {
  }

  // Even when room is made for it.
  lemma OneTooManyIsForgotten(es: seq<Event>, max: nat, b: Mac)
    requires 0 < max == |Listed(es, max)| && b !in Listed(es, max)
    ensures var all := es + [Event(b, true)] + [Event(Listed(es, max)[0], false)];
            Authorized(all, b) && b !in Listed(all, max) && |Listed(all, max)| < max
  {
    var a := Listed(es, max)[0];
    var some := es + [Event(b, true)];
    var all := some + [Event(a, false)];
    LeftOutStaysOut(es, max, b, [Event(a, false)]);
    assert some[..|es|] == es && all[..|some|] == some;
    assert a in Listed(es, max);
  }

  class Stations {
    const max: nat
    const stas: array<Mac>
    var count: nat
    ghost var events: seq<Event>  // since the access point was started

    ghost predicate Valid()
      reads this, stas
    {
      stas.Length == max <= 0xff && count <= max && stas[..count] == Listed(events, max)
    }

    constructor (max: nat)
      requires max <= 0xff
      ensures Valid() && events == [] && this.max == max && fresh(stas)
    {
      this.max, count, events := max, 0, [];
      stas := new Mac[max](i => []);
      new;
      assert stas[..0] == [];
    }

    // mm_halow_ap_sta_status_cb()
    method StatusCallback(e: Event)
      requires Valid()
      modifies this, stas
      ensures Valid() && events == old(events) + [e]
    {
      ghost var was := stas[..count];
      assert (events + [e])[..|events|] == events;
      events := events + [e];
      var i := Find(e.mac);
      if i < count {
        if !e.authorized {
          count := count - 1;
          MoveDown(i, count - i);
        }
        return;
      }
      if e.authorized && count < max {
        stas[count] := e.mac;
        count := count + 1;
        assert stas[..count] == was + [e.mac];
      }
    }

    // The search the callback begins with.
    method Find(m: Mac) returns (i: nat)
      requires stas.Length == max && count <= max
      ensures i == Index(stas[..count], m)
    {
      i := 0;
      while i < count && stas[i] != m
        invariant i <= count && forall k :: 0 <= k < i ==> stas[k] != m
      {
        i := i + 1;
      }
      assert i < count ==> stas[..count][i] == m;
    }

    // memmove(ap_stas[i], ap_stas[i + 1], n entries)
    method MoveDown(i: nat, n: nat)
      requires stas.Length == max && i + n + 1 <= max
      modifies stas
      ensures stas[..i + n] == Without(old(stas[..i + n + 1]), i)
    {
      for j := 0 to n
        invariant forall k :: 0 <= k < i ==> stas[k] == old(stas[k])
        invariant forall k :: i <= k < i + j ==> stas[k] == old(stas[k + 1])
        invariant forall k :: i + j <= k < max ==> stas[k] == old(stas[k])
      {
        stas[i + j] := stas[i + j + 1];
      }
    }
  }
}
