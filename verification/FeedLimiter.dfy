/** The sliding-window limit on JSON_LISTINGS_FEED submissions
    (internal/ratelimit/feedlimit.go). Time is in seconds.
  */
module FeedLimiters {

  const MAX_PER_WINDOW: nat := 5
  const JSON_LISTINGS_FEED := "JSON_LISTINGS_FEED"

  /** The timestamps that `ts.After(cutoff)` keeps, in order. */
  function Live(ts: seq<real>, cutoff: real): seq<real> {
    if ts == [] then []
    else
      var live, last := Live(ts[..|ts| - 1], cutoff), ts[|ts| - 1];
      if last > cutoff then live + [last] else live
  }

  function KeyOf(merchantKey: string, region: string): string {
    merchantKey + ":" + region
  }

  /** One Allow call. */
  datatype Call = Call(merchantKey: string, region: string, feedType: string, at: real)

  function StampsIn(entries: map<string, seq<real>>, key: string): seq<real> {
    if key in entries then entries[key] else []
  }

  /** Whether the call is allowed, and what it leaves, by the timestamps the limiter holds. */
  predicate Allowed(entries: map<string, seq<real>>, c: Call, w: real) {
    c.feedType != JSON_LISTINGS_FEED
    || |Live(StampsIn(entries, KeyOf(c.merchantKey, c.region)), c.at - w)| < MAX_PER_WINDOW
  }

  function AfterCall(entries: map<string, seq<real>>, c: Call, w: real): map<string, seq<real>> {
    var key := KeyOf(c.merchantKey, c.region);
    if c.feedType != JSON_LISTINGS_FEED then entries
    else entries[key := HoldOne(StampsIn(entries, key), c.at, w)]
  }

  class FeedLimiter {
    var entries: map<string, seq<real>>
    const window: real

    constructor (window: real)
      ensures entries == map[] && this.window == window
    {
      entries := map[];
      this.window := window;
    }

    /** Allow: prunes the key's timestamps in place, then records the submission if there is room. */
    method Allow(merchantKey: string, region: string, feedType: string, now: real) returns (ok: bool)
      modifies this
      ensures ok == Allowed(old(entries), Call(merchantKey, region, feedType, now), window)
      ensures entries == AfterCall(old(entries), Call(merchantKey, region, feedType, now), window)
    {
      if feedType != JSON_LISTINGS_FEED {
        return true;
      }
      var key := KeyOf(merchantKey, region);
      var valid := Prune(StampsIn(entries, key), now - window);
      if |valid| >= MAX_PER_WINDOW {
        entries := entries[key := valid];
        return false;
      }
      entries := entries[key := valid + [now]];
      return true;
    }
  }

  method Prune(timestamps: seq<real>, cutoff: real) returns (valid: seq<real>)
    ensures valid == Live(timestamps, cutoff)
  {
    var slice := new real[|timestamps|](i requires 0 <= i < |timestamps| => timestamps[i]);
    assert slice[..] == timestamps;
    var n := PruneInPlace(slice, cutoff);
    valid := slice[..n];
  }

  /** The loop that reuses the slice it reads from: `valid := timestamps[:0]`, then appends. */
  method PruneInPlace(slice: array<real>, cutoff: real) returns (n: nat)
    modifies slice
    ensures n <= slice.Length
    ensures slice[..n] == Live(old(slice[..]), cutoff)
  {
    n := 0;
    ghost var ts := slice[..];
    for i := 0 to slice.Length
      invariant n <= i
      invariant slice[..n] == Live(ts[..i], cutoff)
      invariant forall k :: i <= k < slice.Length ==> slice[k] == ts[k]
    {
      assert ts[..i + 1][..i] == ts[..i] && ts[..i + 1][i] == slice[i];
      if slice[i] > cutoff {
        slice[n] := slice[i];
        n := n + 1;
      }
    }
    assert ts[..slice.Length] == ts;
  }

  // ---------- what the prune keeps ----------

  lemma {:induction false} LiveIsExact(ts: seq<real>, cutoff: real)
    ensures forall t :: t > cutoff ==> multiset(Live(ts, cutoff))[t] == multiset(ts)[t]
    ensures forall t :: t <= cutoff ==> t !in Live(ts, cutoff)
  {
    if ts != [] {
      var n := |ts| - 1;
      LiveIsExact(ts[..n], cutoff);
      assert ts == ts[..n] + [ts[n]];
    }
  }

  // ---------- histories of one key ----------

  predicate Sorted(ts: seq<real>) {
    forall i, j :: 0 <= i < j < |ts| ==> ts[i] <= ts[j]
  }

  /** How many of `accepted` lie inside the window that ends at `now`. */
  function InWindow(accepted: seq<real>, now: real, w: real): nat {
    |Live(accepted, now - w)|
  }

  /** The sliding-window rule itself, on the full list of accepted submissions. */
  function AcceptOne(accepted: seq<real>, now: real, w: real): seq<real> {
    if InWindow(accepted, now, w) < MAX_PER_WINDOW then accepted + [now] else accepted
  }

  /** All accepted submissions of one key after submissions at the times `at`, in a window `w`. */
  function Accepted(at: seq<real>, w: real): seq<real> {
    if at == [] then [] else AcceptOne(Accepted(at[..|at| - 1], w), at[|at| - 1], w)
  }

  /** What one Allow does to the timestamps the limiter holds for the key. */
  function HoldOne(held: seq<real>, now: real, w: real): seq<real> {
    var live := Live(held, now - w);
    if |live| < MAX_PER_WINDOW then live + [now] else live
  }

  /** The timestamps the limiter holds after the same submissions. */
  function Held(at: seq<real>, w: real): seq<real> {
    if at == [] then [] else HoldOne(Held(at[..|at| - 1], w), at[|at| - 1], w)
  }

  lemma LiveAppend(ts: seq<real>, t: real, cutoff: real)
    ensures Live(ts + [t], cutoff) == if t > cutoff then Live(ts, cutoff) + [t] else Live(ts, cutoff)
  {
    assert (ts + [t])[..|ts|] == ts;
  }

  /** Pruning twice is pruning once at the later cutoff. */
  lemma {:induction false} LiveOfLive(ts: seq<real>, early: real, late: real)
    requires early <= late
    ensures Live(Live(ts, early), late) == Live(ts, late)
  {
    if ts != [] {
      var n := |ts| - 1;
      var head, t := ts[..n], ts[n];
      LiveOfLive(head, early, late);
      assert ts == head + [t];
      LiveAppend(head, t, late);
      LiveAppend(head, t, early);
      LiveAppend(Live(head, early), t, late);
    }
  }

  lemma SortedAppend(ts: seq<real>, t: real)
    requires Sorted(ts) && (ts != [] ==> ts[|ts| - 1] <= t)
    ensures Sorted(ts + [t])
  {
  }

  lemma {:induction false} AcceptedIsSorted(at: seq<real>, w: real)
    requires Sorted(at)
    ensures Sorted(Accepted(at, w))
    ensures Accepted(at, w) != [] ==> at != [] && Accepted(at, w)[|Accepted(at, w)| - 1] <= at[|at| - 1]
  {
    if at != [] {
      var head, t := at[..|at| - 1], at[|at| - 1];
      AcceptedIsSorted(head, w);
      assert head != [] ==> head[|head| - 1] <= t;
      AcceptOneSorted(Accepted(head, w), t, w);
    }
  }

  lemma AcceptOneSorted(accepted: seq<real>, t: real, w: real)
    requires Sorted(accepted) && (accepted != [] ==> accepted[|accepted| - 1] <= t)
    ensures var a := AcceptOne(accepted, t, w);
            Sorted(a) && (a != [] ==> a[|a| - 1] <= t)
  {
    SortedAppend(accepted, t);
  }

  lemma OneStepAgrees(held: seq<real>, accepted: seq<real>, t: real, now: real, w: real)
    requires Live(held, t - w) == Live(accepted, t - w) && t <= now
    ensures Live(HoldOne(held, t, w), now - w) == Live(AcceptOne(accepted, t, w), now - w)
  {
    LiveOfLive(accepted, t - w, now - w);
    BothGrow(Live(held, t - w), accepted, t, now - w);
  }

  lemma BothGrow(a: seq<real>, b: seq<real>, t: real, cutoff: real)
    requires Live(a, cutoff) == Live(b, cutoff)
    ensures Live(a + [t], cutoff) == Live(b + [t], cutoff)
  {
    LiveAppend(a, t, cutoff);
    LiveAppend(b, t, cutoff);
  }

  /** The prune never loses a timestamp that could still count. */
  lemma {:induction false} HeldIsRecentAccepted(at: seq<real>, now: real, w: real)
    requires Sorted(at) && (at != [] ==> at[|at| - 1] <= now)
    ensures Live(Held(at, w), now - w) == Live(Accepted(at, w), now - w)
  {
    if at != [] {
      var head, t := at[..|at| - 1], at[|at| - 1];
      HeldIsRecentAccepted(head, t, w);
      OneStepAgrees(Held(head, w), Accepted(head, w), t, now, w);
    }
  }

  lemma {:induction false} OneKeyRefuses(at: seq<real>, now: real, w: real)
    requires Sorted(at) && (at != [] ==> at[|at| - 1] <= now)
    ensures InWindow(Held(at, w), now, w) == InWindow(Accepted(at, w), now, w) <= MAX_PER_WINDOW
  {
    HeldIsRecentAccepted(at, now, w);
    HeldIsShort(at, w);
    SameWindow(Held(at, w), Accepted(at, w), now, w);
  }

  lemma {:induction false} SameWindow(held: seq<real>, accepted: seq<real>, now: real, w: real)
    requires Live(held, now - w) == Live(accepted, now - w) && |held| <= MAX_PER_WINDOW
    ensures InWindow(held, now, w) == InWindow(accepted, now, w) <= MAX_PER_WINDOW
  {
    LiveIsShorter(held, now - w);
  }

  lemma {:induction false} LiveIsShorter(ts: seq<real>, cutoff: real)
    ensures |Live(ts, cutoff)| <= |ts|
  {
    if ts != [] {
      LiveIsShorter(ts[..|ts| - 1], cutoff);
    }
  }

  lemma {:induction false} HeldIsShort(at: seq<real>, w: real)
    ensures |Held(at, w)| <= MAX_PER_WINDOW
  {
    if at != [] {
      var head := at[..|at| - 1];
      HeldIsShort(head, w);
      HoldOneIsShort(Held(head, w), at[|at| - 1], w);
    }
  }

  lemma HoldOneIsShort(held: seq<real>, now: real, w: real)
    requires |held| <= MAX_PER_WINDOW
    ensures |HoldOne(held, now, w)| <= MAX_PER_WINDOW
  {
    LiveIsShorter(held, now - w);
  }

  /** If the k-th youngest is live, at least k are. */
  lemma {:induction false} ManyLive(ts: seq<real>, k: nat, cutoff: real)
    requires Sorted(ts) && 0 < k <= |ts| && ts[|ts| - k] > cutoff
    ensures |Live(ts, cutoff)| >= k
  {
    assert ts[|ts| - 1] >= ts[|ts| - k];
    if k > 1 {
      ManyLive(ts[..|ts| - 1], k - 1, cutoff);
    }
  }

  lemma {:induction false} OneKeySpans(at: seq<real>, w: real, i: nat)
    requires Sorted(at) && i + MAX_PER_WINDOW < |Accepted(at, w)|
    ensures Accepted(at, w)[i + MAX_PER_WINDOW] - Accepted(at, w)[i] >= w
  {
    var head := at[..|at| - 1];
    var before, now := Accepted(head, w), at[|at| - 1];
    AcceptedIsSorted(head, w);
    if i + MAX_PER_WINDOW < |before| {
      OneKeySpans(head, w, i);
    } else if before[i] > now - w {
      ManyLive(before, MAX_PER_WINDOW, now - w);
    }
  }

  // ---------- one window for each seller and region ----------

  /** One region ends with a colon and the other region. */
  predicate Overlap(r1: string, r2: string) {
    |r1| < |r2| && r2[|r2| - |r1| - 1..] == ":" + r1
  }

  /** Sellers of two regions never share a window, whatever their merchant keys, if and only if
      neither region ends with a colon and the other. Different sellers of one region never do. */
  lemma KeysAreApartIff(r1: string, r2: string)
    ensures !Overlap(r1, r2) && !Overlap(r2, r1) <==>
            (forall m1, m2 :: KeyOf(m1, r1) == KeyOf(m2, r2) ==> m1 == m2 && r1 == r2)
  {
    if Overlap(r1, r2) {
      MergedBy(r1, r2);
    } else if Overlap(r2, r1) {
      MergedBy(r2, r1);
    } else {
      forall m1, m2 | KeyOf(m1, r1) == KeyOf(m2, r2)
        ensures m1 == m2 && r1 == r2
      {
        SameKeySameRegion(m1, r1, m2, r2);
      }
    }
  }

  lemma MergedBy(r1: string, r2: string)
    requires Overlap(r1, r2)
    ensures exists m1, m2 :: KeyOf(m1, r1) == KeyOf(m2, r2) && KeyOf(m2, r2) == KeyOf(m1, r1) && m1 != m2 && r1 != r2
  {
    var x := r2[..|r2| - |r1| - 1];
    var m1, m2 := "a:" + x, "a";
    assert r2 == x + (":" + r1);
    assert KeyOf(m1, r1) == KeyOf(m2, r2);
  }

  lemma SameKeySameRegion(m1: string, r1: string, m2: string, r2: string)
    requires KeyOf(m1, r1) == KeyOf(m2, r2)
    ensures (m1 == m2 && r1 == r2) || Overlap(r1, r2) || Overlap(r2, r1)
  {
    var k := KeyOf(m1, r1);
    KeyEnds(m1, r1);
    KeyEnds(m2, r2);
    if |r1| < |r2| {
      assert r2[|r2| - |r1| - 1..] == k[|m2| + 1..][|r2| - |r1| - 1..] == k[|m1|..];
    } else if |r2| < |r1| {
      assert r1[|r1| - |r2| - 1..] == k[|m1| + 1..][|r1| - |r2| - 1..] == k[|m2|..];
    }
  }

  lemma KeyEnds(m: string, r: string)
    ensures var k := KeyOf(m, r); k[..|m|] == m && k[|m|..] == ":" + r && k[|m| + 1..] == r
  {
  }

  /** With a colon in the region the windows can be shared: two different pairs, one key. */
  lemma ColonInRegionMergesWindows()
    ensures KeyOf("a", "b:c") == KeyOf("a:b", "c") && "a" != "a:b"
  {
    assert KeyOf("a", "b:c") == "a:b:c";
  }

  // ---------- histories of all sellers ----------

  /** The limiter's map after a history of calls, by sellers of all regions. */
  function EntriesAfter(calls: seq<Call>, w: real): map<string, seq<real>> {
    if calls == [] then map[] else AfterCall(EntriesAfter(calls[..|calls| - 1], w), calls[|calls| - 1], w)
  }

  predicate Submits(c: Call, m: string, r: string) {
    c.feedType == JSON_LISTINGS_FEED && c.merchantKey == m && c.region == r
  }

  /** When this seller submitted in this region. */
  function TimesOf(calls: seq<Call>, m: string, r: string): seq<real> {
    if calls == [] then []
    else
      var before, c := TimesOf(calls[..|calls| - 1], m, r), calls[|calls| - 1];
      if Submits(c, m, r) then before + [c.at] else before
  }

  /** When this seller's submissions in this region were let through. */
  function AllowedTimes(calls: seq<Call>, m: string, r: string, w: real): seq<real> {
    if calls == [] then []
    else
      var head, c := calls[..|calls| - 1], calls[|calls| - 1];
      var before := AllowedTimes(head, m, r, w);
      if Submits(c, m, r) && Allowed(EntriesAfter(head, w), c, w) then before + [c.at] else before
  }

  /** In time order, and with regions whose windows are apart from those of `r`. */
  predicate History(calls: seq<Call>, r: string) {
    && (forall i, j :: 0 <= i < j < |calls| ==> calls[i].at <= calls[j].at)
    && (forall i :: 0 <= i < |calls| ==> !Overlap(calls[i].region, r) && !Overlap(r, calls[i].region))
  }

  lemma {:induction false} TimesInOrder(calls: seq<Call>, m: string, r: string)
    requires History(calls, r)
    ensures var at := TimesOf(calls, m, r);
            Sorted(at) && (at != [] ==> calls != [] && at[|at| - 1] <= calls[|calls| - 1].at)
  {
    if calls != [] {
      var head, c := calls[..|calls| - 1], calls[|calls| - 1];
      TimesInOrder(head, m, r);
      assert head != [] ==> head[|head| - 1].at <= c.at;
      SortedAppend(TimesOf(head, m, r), c.at);
    }
  }

  /** The limiter holds for a seller and region what their own submissions left, whatever the others
      did. */
  lemma {:induction false} EntryIsHeld(calls: seq<Call>, m: string, r: string, w: real)
    requires History(calls, r)
    ensures StampsIn(EntriesAfter(calls, w), KeyOf(m, r)) == Held(TimesOf(calls, m, r), w)
  {
    if calls != [] {
      var head, c := calls[..|calls| - 1], calls[|calls| - 1];
      EntryIsHeld(head, m, r, w);
      if KeyOf(c.merchantKey, c.region) == KeyOf(m, r) {
        SameKeySameRegion(c.merchantKey, c.region, m, r);
      }
      if Submits(c, m, r) {
        HeldGrows(TimesOf(head, m, r), c.at, w);
      }
    }
  }

  lemma HeldGrows(at: seq<real>, t: real, w: real)
    ensures Held(at + [t], w) == HoldOne(Held(at, w), t, w)
    ensures Accepted(at + [t], w) == AcceptOne(Accepted(at, w), t, w)
  {
    assert (at + [t])[..|at|] == at;
  }

  lemma {:induction false} DecisionOn(entries: map<string, seq<real>>, at: seq<real>, c: Call, w: real)
    requires StampsIn(entries, KeyOf(c.merchantKey, c.region)) == Held(at, w) && c.feedType == JSON_LISTINGS_FEED
    requires Sorted(at) && (at != [] ==> at[|at| - 1] <= c.at)
    ensures Allowed(entries, c, w) <==> InWindow(Accepted(at, w), c.at, w) < MAX_PER_WINDOW
    ensures InWindow(Accepted(at, w), c.at, w) <= MAX_PER_WINDOW
  {
    OneKeyRefuses(at, c.at, w);
  }

  lemma {:induction false} Decision(calls: seq<Call>, c: Call, w: real)
    requires History(calls, c.region) && (calls != [] ==> calls[|calls| - 1].at <= c.at)
    requires c.feedType == JSON_LISTINGS_FEED
    ensures var accepted := Accepted(TimesOf(calls, c.merchantKey, c.region), w);
            && (Allowed(EntriesAfter(calls, w), c, w) <==> InWindow(accepted, c.at, w) < MAX_PER_WINDOW)
            && InWindow(accepted, c.at, w) <= MAX_PER_WINDOW
  {
    EntryIsHeld(calls, c.merchantKey, c.region, w);
    TimesInOrder(calls, c.merchantKey, c.region);
    DecisionOn(EntriesAfter(calls, w), TimesOf(calls, c.merchantKey, c.region), c, w);
  }

  /** What is let through is what the sliding-window rule accepts. */
  lemma {:induction false} AllowedIsAccepted(calls: seq<Call>, m: string, r: string, w: real)
    requires History(calls, r)
    ensures AllowedTimes(calls, m, r, w) == Accepted(TimesOf(calls, m, r), w)
  {
    if calls != [] {
      var head, c := calls[..|calls| - 1], calls[|calls| - 1];
      AllowedIsAccepted(head, m, r, w);
      if Submits(c, m, r) {
        assert head != [] ==> head[|head| - 1].at <= c.at;
        Decision(head, c, w);
        HeldGrows(TimesOf(head, m, r), c.at, w);
      }
    }
  }

  /** The limiter's decision is the sliding-window rule, for each seller and region: after any
      history of calls a submission is refused if and only if five of the seller's own submissions
      in that region were let through inside the window that ends with it; more never were. */
  lemma RefusedIffFiveInWindow(calls: seq<Call>, c: Call, w: real)
    requires History(calls + [c], c.region) && c.feedType == "JSON_LISTINGS_FEED"
    ensures var before := AllowedTimes(calls, c.merchantKey, c.region, w);
            && (!Allowed(EntriesAfter(calls, w), c, w) <==> InWindow(before, c.at, w) == 5)
            && InWindow(before, c.at, w) <= 5
  {
    HistoryHead(calls, c);
    AllowedIsAccepted(calls, c.merchantKey, c.region, w);
    Decision(calls, c, w);
  }

  lemma HistoryHead(calls: seq<Call>, c: Call)
    requires History(calls + [c], c.region)
    ensures History(calls, c.region) && (calls != [] ==> calls[|calls| - 1].at <= c.at)
  {
    var all := calls + [c];
    assert forall i :: 0 <= i < |calls| ==> all[i] == calls[i];
    assert all[|calls|] == c;
  }

  /** Feeds of any other type are not limited, and leave the windows alone. */
  lemma OtherFeedsPass(calls: seq<Call>, c: Call, w: real)
    requires c.feedType != "JSON_LISTINGS_FEED"
    ensures Allowed(EntriesAfter(calls, w), c, w) && EntriesAfter(calls + [c], w) == EntriesAfter(calls, w)
  {
    assert (calls + [c])[..|calls|] == calls;
  }

  /** Any six of a seller's submissions in a region that were let through one after the other span
      at least the window. */
  lemma SixSpanTheWindow(calls: seq<Call>, m: string, r: string, w: real, i: nat)
    requires History(calls, r) && i + 5 < |AllowedTimes(calls, m, r, w)|
    ensures var at := AllowedTimes(calls, m, r, w); at[i + 5] - at[i] >= w
  {
    AllowedIsAccepted(calls, m, r, w);
    TimesInOrder(calls, m, r);
    OneKeySpans(TimesOf(calls, m, r), w, i);
  }
}
