/** Size eviction (internal/bodies/rotator.go, sizeInventory and evictBySize): when all tiers
    together exceed the byte budget, the oldest objects go first, and no more than needed.
  */
module SizeEviction {
  import opened Options
  import opened BodyNames
  import opened BodyTiers
  import opened Rotators
  import Text

  /** Where an inventoried object is. */
  datatype Place = Local(local: Hour) | Remote(key: Key)

  datatype Item = Item(place: Place, size: nat, modTime: int)

  /** The file the object is a copy of, as baseFileName gives it for keys. */
  function FileOf(i: Item): Hour {
    match i.place
    case Local(f) => f
    case Remote(k) => k.file
  }

  function Total(items: seq<Item>): nat {
    if items == [] then 0 else Total(items[..|items| - 1]) + items[|items| - 1].size
  }

  predicate SortedByAge(items: seq<Item>) {
    forall i, j :: 0 <= i < j < |items| ==> items[i].modTime <= items[j].modTime
  }

  // ---------- sort.SliceStable ----------

  function InsertByAge(x: Item, items: seq<Item>): seq<Item> {
    if items == [] || x.modTime <= items[0].modTime then [x] + items
    else [items[0]] + InsertByAge(x, items[1..])
  }

  /** The stable sort by age: equal ages keep their order. */
  function SortByAge(items: seq<Item>): seq<Item> {
    if items == [] then [] else InsertByAge(items[0], SortByAge(items[1..]))
  }

  lemma {:induction false} InsertKeeps(x: Item, items: seq<Item>)
    ensures multiset(InsertByAge(x, items)) == multiset(items) + multiset{x}
  {
    if items != [] && x.modTime > items[0].modTime {
      InsertKeeps(x, items[1..]);
      assert items == [items[0]] + items[1..];
    }
  }

  lemma {:induction false} InsertedAre(x: Item, items: seq<Item>, i: nat)
    requires i < |InsertByAge(x, items)|
    ensures InsertByAge(x, items)[i] == x || InsertByAge(x, items)[i] in items
  {
    if items != [] && x.modTime > items[0].modTime && i > 0 {
      InsertedAre(x, items[1..], i - 1);
    }
  }

  lemma {:induction false} InsertSorted(x: Item, items: seq<Item>)
    requires SortedByAge(items)
    ensures SortedByAge(InsertByAge(x, items))
  {
    if items != [] && x.modTime > items[0].modTime {
      var tail := items[1..];
      var rest := InsertByAge(x, tail);
      InsertSorted(x, tail);
      forall i | 0 <= i < |rest|
        ensures items[0].modTime <= rest[i].modTime
      {
        InsertedAre(x, tail, i);
      }
      PrependSorted(items[0], rest);
    }
  }

  lemma PrependSorted(x: Item, items: seq<Item>)
    requires SortedByAge(items) && forall i :: 0 <= i < |items| ==> x.modTime <= items[i].modTime
    ensures SortedByAge([x] + items)
  {
  }

  lemma {:induction false} SortSorts(items: seq<Item>)
    ensures SortedByAge(SortByAge(items)) && multiset(SortByAge(items)) == multiset(items)
  {
    if items != [] {
      SortSorts(items[1..]);
      InsertSorted(items[0], SortByAge(items[1..]));
      InsertKeeps(items[0], SortByAge(items[1..]));
      assert items == [items[0]] + items[1..];
    }
  }

  /** The items of one age, in order. */
  function OfAge(items: seq<Item>, t: int): seq<Item> {
    if items == [] then []
    else if items[0].modTime == t then [items[0]] + OfAge(items[1..], t)
    else OfAge(items[1..], t)
  }

  lemma {:induction false} InsertStable(x: Item, items: seq<Item>, t: int)
    requires SortedByAge(items)
    ensures OfAge(InsertByAge(x, items), t) == OfAge([x] + items, t)
  {
    assert ([x] + items)[1..] == items;
    if items != [] && x.modTime > items[0].modTime {
      InsertStable(x, items[1..], t);
      assert ([x] + items[1..])[1..] == items[1..];
      var r := InsertByAge(x, items[1..]);
      assert ([items[0]] + r)[1..] == r;
    }
  }

  /** Stable: items of equal age stay in the order they were listed. */
  lemma {:induction false} SortIsStable(items: seq<Item>, t: int)
    ensures OfAge(SortByAge(items), t) == OfAge(items, t)
  {
    if items != [] {
      var rest := SortByAge(items[1..]);
      SortIsStable(items[1..], t);
      SortSorts(items[1..]);
      InsertStable(items[0], rest, t);
      assert ([items[0]] + rest)[1..] == rest;
    }
  }

  lemma {:induction false} TotalOfSplit(a: seq<Item>, b: seq<Item>)
    ensures Total(a + b) == Total(a) + Total(b)
    decreases |b|
  {
    if b == [] {
      assert a + b == a;
    } else {
      var n := |b| - 1;
      assert (a + b)[..|a + b| - 1] == a + b[..n];
      TotalOfSplit(a, b[..n]);
    }
  }

  // ---------- the inventory ----------

  predicate Holds(s: Store, i: Item) {
    match i.place
    case Local(f) => f in s.current && i.size == |s.current[f].data| && i.modTime == s.current[f].modTime
    case Remote(k) => k in s.backend && i.size == |s.backend[k].data| && i.modTime == s.backend[k].modTime
  }

  /** Lists every object of all three tiers exactly once, with its size and age. */
  ghost predicate Inventory(items: seq<Item>, s: Store) {
    && (forall i :: i in items ==> Holds(s, i))
    && (forall f :: f in s.current ==> exists i :: i in items && i.place == Local(f))
    && (forall k :: k in s.backend ==> exists i :: i in items && i.place == Remote(k))
    && (forall a, b :: 0 <= a < b < |items| ==> items[a].place != items[b].place)
  }

  /** The items eviction may delete: those of other files than the hour's own. */
  function Candidates(items: seq<Item>, active: Hour): seq<Item> {
    if items == [] then []
    else
      var front, last := Candidates(items[..|items| - 1], active), items[|items| - 1];
      if FileOf(last) == active then front else front + [last]
  }

  /** The items of the hour's own file, which are exempt. */
  function Exempt(items: seq<Item>, active: Hour): seq<Item> {
    if items == [] then []
    else
      var front, last := Exempt(items[..|items| - 1], active), items[|items| - 1];
      if FileOf(last) == active then front + [last] else front
  }

  predicate Apart(items: seq<Item>) {
    forall a, b :: 0 <= a < b < |items| ==> items[a].place != items[b].place
  }

  lemma {:induction false} Parts(items: seq<Item>, active: Hour)
    ensures forall i :: i in items <==> i in Candidates(items, active) || i in Exempt(items, active)
    ensures forall i :: i in Candidates(items, active) ==> FileOf(i) != active
    ensures forall i :: i in Exempt(items, active) ==> FileOf(i) == active
  {
    if items != [] {
      var n := |items| - 1;
      Parts(items[..n], active);
      assert items == items[..n] + [items[n]];
    }
  }

  lemma {:induction false} ExemptApart(items: seq<Item>, active: Hour)
    requires Apart(items)
    ensures Apart(Exempt(items, active))
  {
    if items != [] {
      var n := |items| - 1;
      ExemptApart(items[..n], active);
      Parts(items[..n], active);
      var front := Exempt(items[..n], active);
      forall a | 0 <= a < |front|
        ensures front[a].place != items[n].place
      {
        assert front[a] in items[..n];
      }
    }
  }

  lemma {:induction false} CandidatesOfPrefix(items: seq<Item>, active: Hour, n: nat)
    requires n <= |items|
    ensures Candidates(items[..n], active) <= Candidates(items, active)
    decreases |items| - n
  {
    if n == |items| {
      assert items[..n] == items;
    } else {
      CandidatesOfPrefix(items, active, n + 1);
      assert items[..n + 1][..n] == items[..n];
    }
  }

  /** What is left when the candidates among the first `n` are gone. */
  function Left(items: seq<Item>, active: Hour, n: nat): seq<Item>
    requires n <= |items|
  {
    Exempt(items[..n], active) + items[n..]
  }

  lemma LeftTotal(items: seq<Item>, active: Hour, n: nat)
    requires n <= |items|
    ensures Total(Left(items, active, n)) == Total(items) - Total(Candidates(items[..n], active))
  {
    var front, rest := items[..n], items[n..];
    PartsTotal(front, active);
    TotalOfSplit(front, rest);
    TotalOfSplit(Exempt(front, active), rest);
    assert items == front + rest;
  }

  lemma {:induction false} PartsTotal(items: seq<Item>, active: Hour)
    ensures Total(items) == Total(Candidates(items, active)) + Total(Exempt(items, active))
  {
    if items != [] {
      var n := |items| - 1;
      PartsTotal(items[..n], active);
      assert Candidates(items[..n], active) + [items[n]] != [] && Exempt(items[..n], active) + [items[n]] != [];
    }
  }

  lemma LeftApart(items: seq<Item>, active: Hour, n: nat)
    requires n <= |items| && Apart(items)
    ensures Apart(Left(items, active, n))
  {
    ExemptApart(items[..n], active);
    Parts(items[..n], active);
    var e, rest := Exempt(items[..n], active), items[n..];
    forall a, b | 0 <= a < |e| && 0 <= b < |rest|
      ensures e[a].place != rest[b].place
    {
      assert e[a] in items[..n];
    }
  }

  // ---------- the store after deletions ----------

  function Locals(items: seq<Item>): set<Hour> {
    set i | i in items && i.place.Local? :: i.place.local
  }

  function Keys(items: seq<Item>): set<Key> {
    set i | i in items && i.place.Remote? :: i.place.key
  }

  function Files(items: seq<Item>): set<Hour> {
    set i | i in items :: FileOf(i)
  }

  /** `t` is `s` without the objects of `gone`. */
  ghost predicate Without(s: Store, t: Store, gone: seq<Item>) {
    && t.current == s.current - Locals(gone) && t.backend == s.backend - Keys(gone)
    && t.clock == s.clock && t.now == s.now && t.history == s.history && t.rotation == s.rotation
  }

  lemma InventoryOfRest(s: Store, t: Store, items: seq<Item>, n: nat)
    requires Inventory(items, s) && n <= |items| && Without(s, t, Candidates(items[..n], s.clock))
    ensures Inventory(Left(items, s.clock, n), t)
  {
    var gone, left := Candidates(items[..n], s.clock), Left(items, s.clock, n);
    LeftApart(items, s.clock, n);
    Parts(items[..n], s.clock);
    assert items == items[..n] + items[n..];
    forall i
      ensures i in items <==> i in gone || i in left
    {
    }
    forall i | i in left
      ensures Holds(t, i)
    {
      NotBoth(items, s.clock, n, i);
    }
    forall f | f in t.current
      ensures exists i :: i in left && i.place == Local(f)
    {
      var i :| i in items && i.place == Local(f);
      assert i !in gone;
    }
    forall k | k in t.backend
      ensures exists i :: i in left && i.place == Remote(k)
    {
      var i :| i in items && i.place == Remote(k);
      assert i !in gone;
    }
  }

  lemma NotBoth(items: seq<Item>, active: Hour, n: nat, i: Item)
    requires Apart(items) && n <= |items| && i in Left(items, active, n)
    ensures i.place.Local? ==> i.place.local !in Locals(Candidates(items[..n], active))
    ensures i.place.Remote? ==> i.place.key !in Keys(Candidates(items[..n], active))
  {
    var gone := Candidates(items[..n], active);
    Parts(items[..n], active);
    forall g | g in gone
      ensures g.place != i.place
    {
      if i in items[n..] {
        assert g in items[..n];
      } else {
        assert FileOf(i) == active && FileOf(g) != active;
      }
    }
  }

  // ---------- sizeInventory ----------

  /** The objects of `done`, listed once each. */
  ghost predicate Listed(items: seq<Item>, s: Store, locals: set<Hour>, keys: set<Key>) {
    && (forall i :: i in items ==>
          && Holds(s, i)
          && (i.place.Local? ==> i.place.local in locals)
          && (i.place.Remote? ==> i.place.key in keys))
    && (forall f :: f in locals ==> exists i :: i in items && i.place == Local(f))
    && (forall k :: k in keys ==> exists i :: i in items && i.place == Remote(k))
    && Apart(items)
  }

  lemma ListOne(items: seq<Item>, s: Store, locals: set<Hour>, keys: set<Key>, x: Item)
    requires Listed(items, s, locals, keys) && Holds(s, x)
    requires if x.place.Local? then x.place.local !in locals else x.place.key !in keys
    ensures if x.place.Local? then Listed(items + [x], s, locals + {x.place.local}, keys)
            else Listed(items + [x], s, locals, keys + {x.place.key})
  {
    var more := items + [x];
    assert x in more && forall i :: i in items ==> i in more;
    assert forall a :: 0 <= a < |items| ==> items[a] in items && items[a].place != x.place;
  }

  function TierOf(k: Key): nat {
    if k.Recent? then 1 else 2
  }

  /** In which tier an object is: the local directory, recent/ or archive/. */
  function Tier(i: Item): nat {
    if i.place.Local? then 0 else TierOf(i.place.key)
  }

  predicate InTierOrder(items: seq<Item>) {
    forall a, b :: 0 <= a < b < |items| ==> Tier(items[a]) <= Tier(items[b])
  }

  /** In tier order, up to this tier. */
  predicate UpToTier(items: seq<Item>, tier: nat) {
    InTierOrder(items) && forall i :: 0 <= i < |items| ==> Tier(items[i]) <= tier
  }

  /** Lists the local directory, then recent/, then archive/. */
  method ListObjects(s: Store) returns (items: seq<Item>)
    ensures Inventory(items, s) && InTierOrder(items)
  {
    items := ListLocal(s);
    var recent, archive := set k | k in s.backend && k.Recent?, set k | k in s.backend && k.Archive?;
    items := ListTier(s, items, recent, 1, {});
    items := ListTier(s, items, archive, 2, recent);
    assert recent + archive == s.backend.Keys;
    ListedAll(items, s);
  }

  lemma ListedAll(items: seq<Item>, s: Store)
    requires Listed(items, s, s.current.Keys, s.backend.Keys)
    ensures Inventory(items, s)
  {
  }

  method ListLocal(s: Store) returns (items: seq<Item>)
    ensures Listed(items, s, s.current.Keys, {}) && UpToTier(items, 0)
  {
    items := [];
    var todo := s.current.Keys;
    ghost var done := {};
    while todo != {}
      invariant done + todo == s.current.Keys && done !! todo && Listed(items, s, done, {}) && UpToTier(items, 0)
      decreases todo
    {
      var f :| f in todo;
      var x := Item(Local(f), |s.current[f].data|, s.current[f].modTime);
      ListOne(items, s, done, {}, x);
      items := items + [x];
      todo := todo - {f};
      done := done + {f};
    }
    assert done == s.current.Keys;
  }

  method ListTier(s: Store, before: seq<Item>, tier: set<Key>, ghost n: nat, ghost seen: set<Key>)
    returns (items: seq<Item>)
    requires Listed(before, s, s.current.Keys, seen) && tier <= s.backend.Keys && tier !! seen
    requires UpToTier(before, n) && forall k :: k in tier ==> TierOf(k) == n
    ensures Listed(items, s, s.current.Keys, seen + tier) && UpToTier(items, n)
  {
    items := before;
    var todo := tier;
    ghost var done := seen;
    while todo != {}
      invariant todo <= tier && done == seen + (tier - todo) && todo !! done
      invariant Listed(items, s, s.current.Keys, done) && UpToTier(items, n)
      decreases todo
    {
      var k :| k in todo;
      var x := Item(Remote(k), |s.backend[k].data|, s.backend[k].modTime);
      ListOne(items, s, s.current.Keys, done, x);
      items := items + [x];
      todo := todo - {k};
      done := done + {k};
    }
  }

  lemma SameInventory(a: seq<Item>, b: seq<Item>, s: Store)
    requires Inventory(a, s) && multiset(a) == multiset(b)
    ensures Inventory(b, s) && Total(a) == Total(b)
  {
    forall i
      ensures i in a <==> i in b
    {
      assert i in multiset(a) <==> i in multiset(b);
    }
    SameTotal(a, b);
    forall x, y | 0 <= x < y < |b|
      ensures b[x].place != b[y].place
    {
      if b[x].place == b[y].place {
        assert b[x] in a && b[y] in a;
        var p :| 0 <= p < |a| && a[p] == b[x];
        var q :| 0 <= q < |a| && a[q] == b[y];
        assert p == q;
        Text.OccursTwice(b, x, y);
        Once(a, p);
      }
    }
  }

  lemma Once(a: seq<Item>, p: nat)
    requires p < |a| && Apart(a)
    ensures multiset(a)[a[p]] == 1
  {
    assert a == a[..p] + [a[p]] + a[p + 1..];
    assert a[p] !in a[..p] && a[p] !in a[p + 1..];
  }

  lemma TakeOut(b: seq<Item>, j: nat)
    requires j < |b|
    ensures var rest := b[..j] + b[j + 1..];
            Total(b) == b[j].size + Total(rest) && multiset(rest) == multiset(b) - multiset{b[j]}
  {
    var x := b[j];
    assert b == b[..j] + ([x] + b[j + 1..]);
    TotalOfSplit(b[..j], [x] + b[j + 1..]);
    TotalOfSplit([x], b[j + 1..]);
    TotalOfSplit(b[..j], b[j + 1..]);
    assert [x][..0] == [] && Total([x]) == x.size;
  }

  lemma {:induction false} SameTotal(a: seq<Item>, b: seq<Item>)
    requires multiset(a) == multiset(b)
    ensures Total(a) == Total(b)
    decreases |a|
  {
    if a != [] {
      var n := |a| - 1;
      DropLastItem(a);
      assert a[n] in multiset(a);
      var j :| 0 <= j < |b| && b[j] == a[n];
      TakeOut(b, j);
      SameTotal(a[..n], b[..j] + b[j + 1..]);
    } else {
      assert |multiset(b)| == |b| == 0;
    }
  }

  lemma DropLastItem(a: seq<Item>)
    requires a != []
    ensures multiset(a[..|a| - 1]) == multiset(a) - multiset{a[|a| - 1]}
  {
    assert a == a[..|a| - 1] + [a[|a| - 1]];
  }

  /** The inventory of `s`: every object once, oldest first, those of one age in the order they were
      listed, which is tier by tier. */
  ghost predicate Sorted(items: seq<Item>, listed: seq<Item>, s: Store) {
    && Inventory(listed, s) && InTierOrder(listed)
    && Inventory(items, s) && SortedByAge(items)
    && multiset(items) == multiset(listed)
    && forall t :: OfAge(items, t) == OfAge(listed, t)
  }

  /** sizeInventory: every body object, oldest first, and their total size. */
  method SizeInventory(s: Store) returns (items: seq<Item>, total: int, ghost listed: seq<Item>)
    ensures Sorted(items, listed, s) && total == Total(items)
  {
    var objects := ListObjects(s);
    listed := objects;
    SortSorts(listed);
    items := SortByAge(objects);
    forall t
      ensures OfAge(items, t) == OfAge(listed, t)
    {
      SortIsStable(listed, t);
    }
    SameInventory(listed, items, s);
    total := 0;
    for i := 0 to |items|
      invariant total == Total(items[..i])
    {
      assert items[..i + 1][..i] == items[..i];
      total := total + items[i].size;
    }
    assert items[..|items|] == items;
  }

  // ---------- evictBySize ----------

  /** `gone` is the shortest prefix of the candidates that brings the total within the budget, or
      all of them if none does. */
  ghost predicate ShortestPrefix(items: seq<Item>, active: Hour, gone: seq<Item>, maxBytes: int) {
    && gone <= Candidates(items, active)
    && (Total(items) - Total(gone) <= maxBytes || gone == Candidates(items, active))
    && forall m :: 0 <= m < |gone| ==> Total(items) - Total(gone[..m]) > maxBytes
  }

  function EvictStep(i: Item): Step {
    match i.place
    case Local(f) => EvictLocal(f)
    case Remote(k) => EvictObject(k)
  }

  lemma WithoutOneMore(s: Store, t: Store, gone: seq<Item>, x: Item, cs: Codecs)
    requires Without(s, t, gone) && Holds(t, x) && FileOf(x) != s.clock && t.rotation == Idle
    requires t.pending == s.pending + Files(gone)
    ensures Enabled(t, EvictStep(x)) && Without(s, Next(t, EvictStep(x), cs), gone + [x])
    ensures Next(t, EvictStep(x), cs).pending == s.pending + Files(gone + [x])
  {
    var more, u := gone + [x], Next(t, EvictStep(x), cs);
    assert forall i :: i in more <==> i in gone || i == x;
    assert Files(more) == Files(gone) + {FileOf(x)};
    if x.place.Local? {
      assert Locals(more) == Locals(gone) + {x.place.local} && Keys(more) == Keys(gone);
    } else {
      assert Keys(more) == Keys(gone) + {x.place.key} && Locals(more) == Locals(gone);
    }
  }

  /** The objects of `gone` are deleted, each while the rest was still over budget. */
  ghost predicate Deleting(s: Store, t: Store, items: seq<Item>, gone: seq<Item>, total: int, maxBytes: int) {
    && Without(s, t, gone) && t.pending == s.pending + Files(gone)
    && total == Total(items) - Total(gone)
    && forall m :: 0 <= m < |gone| ==> Total(items) - Total(gone[..m]) > maxBytes
  }

  /** What the loop keeps: that, for the candidates among the first `n` items. */
  ghost predicate Evicting(s: Store, t: Store, items: seq<Item>, n: nat, total: int, maxBytes: int)
    requires n <= |items|
  {
    Deleting(s, t, items, Candidates(items[..n], s.clock), total, maxBytes)
  }

  lemma SkipExempt(s: Store, t: Store, items: seq<Item>, n: nat, total: int, maxBytes: int)
    requires n < |items| && Evicting(s, t, items, n, total, maxBytes) && FileOf(items[n]) == s.clock
    ensures Evicting(s, t, items, n + 1, total, maxBytes)
  {
    assert items[..n + 1][..n] == items[..n];
  }

  lemma EvictNext(s: Store, t: Store, items: seq<Item>, n: nat, total: int, maxBytes: int, cs: Codecs)
    requires n < |items| && Evicting(s, t, items, n, total, maxBytes) && FileOf(items[n]) != s.clock
    requires total > maxBytes && Inventory(items, s) && t.rotation == Idle
    ensures Enabled(t, EvictStep(items[n]))
    ensures Evicting(s, Next(t, EvictStep(items[n]), cs), items, n + 1, total - items[n].size, maxBytes)
  {
    StillHeld(s, t, items, n);
    DeleteNext(s, t, items, Candidates(items[..n], s.clock), items[n], total, maxBytes, cs);
    assert items[..n + 1][..n] == items[..n];
  }

  lemma DeleteNext(s: Store, t: Store, items: seq<Item>, gone: seq<Item>, x: Item, total: int, maxBytes: int,
                   cs: Codecs)
    requires Deleting(s, t, items, gone, total, maxBytes) && FileOf(x) != s.clock
    requires total > maxBytes && Holds(t, x) && t.rotation == Idle
    ensures Enabled(t, EvictStep(x))
    ensures Deleting(s, Next(t, EvictStep(x), cs), items, gone + [x], total - x.size, maxBytes)
  {
    WithoutOneMore(s, t, gone, x, cs);
    OverBudgetSoFar(gone, x, Total(items), maxBytes);
  }

  lemma StillHeld(s: Store, t: Store, items: seq<Item>, n: nat)
    requires n < |items| && Inventory(items, s) && Without(s, t, Candidates(items[..n], s.clock))
    ensures Holds(t, items[n])
  {
    InventoryOfRest(s, t, items, n);
    assert items[n] in items[n..] && items[n] in Left(items, s.clock, n);
  }

  lemma OverBudgetSoFar(gone: seq<Item>, x: Item, all: int, maxBytes: int)
    requires all - Total(gone) > maxBytes && forall m :: 0 <= m < |gone| ==> all - Total(gone[..m]) > maxBytes
    ensures var more := gone + [x];
            && Total(more) == Total(gone) + x.size
            && forall m :: 0 <= m < |more| ==> all - Total(more[..m]) > maxBytes
  {
    var more := gone + [x];
    assert more[..|gone|] == gone;
    forall m | 0 <= m < |more|
      ensures all - Total(more[..m]) > maxBytes
    {
      assert m < |gone| ==> more[..m] == gone[..m];
    }
  }

  /** What a successful eviction has done, from `s` to `t`: of the age-sorted inventory it deleted
      the candidates among the first `n`, and they are the shortest prefix of the candidates that
      brings the total within the budget, or all of them. The tracked `total` is the size of what
      is left, the active file among it. */
  ghost predicate Evicted(s: Store, t: Store, items: seq<Item>, n: nat, total: int, maxBytes: int) {
    && n <= |items| && Inventory(items, s)
    && Without(s, t, Candidates(items[..n], s.clock))
    && ShortestPrefix(items, s.clock, Candidates(items[..n], s.clock), maxBytes)
    && Inventory(Left(items, s.clock, n), t) && Total(Left(items, s.clock, n)) == total
    && (s.clock in s.current ==> s.clock in t.current && t.current[s.clock] == s.current[s.clock])
  }

  lemma EvictionDone(s: Store, t: Store, items: seq<Item>, n: nat, total: int, maxBytes: int)
    requires n <= |items| && Evicting(s, t, items, n, total, maxBytes) && Inventory(items, s)
    requires total <= maxBytes || n == |items|
    ensures Evicted(s, t, items, n, total, maxBytes)
  {
    CandidatesOfPrefix(items, s.clock, n);
    InventoryOfRest(s, t, items, n);
    LeftTotal(items, s.clock, n);
    Parts(items[..n], s.clock);
    assert n == |items| ==> items[..n] == items;
  }

  lemma {:induction false} NoMoreCandidates(items: seq<Item>, active: Hour, n: nat, k: nat)
    requires n <= k < |items| && Candidates(items[..n], active) == Candidates(items, active)
    ensures FileOf(items[k]) == active
    decreases |items| - n
  {
    CandidatesOfPrefix(items, active, n + 1);
    assert items[..n + 1][..n] == items[..n];
    if n < k {
      NoMoreCandidates(items, active, n + 1, k);
    }
  }

  /** After an eviction the store fits its budget, or holds nothing but the active hour's file. */
  lemma FitsOrActive(s: Store, t: Store, items: seq<Item>, n: nat, total: int, maxBytes: int)
    requires Evicted(s, t, items, n, total, maxBytes)
    ensures Fits(t, maxBytes)
  {
    LeftTotal(items, s.clock, n);
    if total > maxBytes {
      OnlyActiveLeft(items, s.clock, n);
    }
    assert Inventory(Left(items, s.clock, n), t);
  }

  lemma OnlyActiveLeft(items: seq<Item>, active: Hour, n: nat)
    requires n <= |items| && Candidates(items[..n], active) == Candidates(items, active)
    ensures forall i :: i in Left(items, active, n) ==> FileOf(i) == active
  {
    var exempt, rest := Exempt(items[..n], active), items[n..];
    Parts(items[..n], active);
    forall k | 0 <= k < |rest|
      ensures FileOf(rest[k]) == active
    {
      NoMoreCandidates(items, active, n, n + k);
    }
    assert forall i :: i in exempt + rest <==> i in exempt || i in rest;
  }

  ghost predicate Fits(s: Store, maxBytes: int) {
    exists items :: Inventory(items, s) && (Total(items) <= maxBytes || forall i :: i in items ==> FileOf(i) == s.clock)
  }

  /** evictBySize. When it returns no error, it has deleted the oldest objects of other hours, no
      more and no fewer than the budget asks for; if the notification succeeded too, which is only
      logged, the files they belonged to are not outstanding. */
  method EvictBySize(r: Rotator)
    returns (ok: bool, told: bool, total: int, ghost items: seq<Item>, ghost listed: seq<Item>, ghost n: nat)
    requires r.store.rotation == Idle
    modifies r
    ensures Reaches(old(r.store), r.store, r.cs) && r.store.rotation == Idle
    ensures ok && r.maxBytes <= 0 ==> r.store == old(r.store)
    ensures ok && r.maxBytes > 0 ==>
              Sorted(items, listed, old(r.store)) && Evicted(old(r.store), r.store, items, n, total, r.maxBytes)
    ensures ok && told ==> r.store.pending <= old(r.store).pending
  {
    ghost var s := r.store;
    ReachesSelf(s, r.cs);
    ok, told, total, items, listed, n := true, true, 0, [], [], 0;
    if r.maxBytes <= 0 {
      return;
    }
    var inventory, sum;
    inventory, sum, listed := SizeInventory(r.store);
    items := inventory;
    var i, deletedFiles;
    ok, i, total, deletedFiles := EvictOldest(r, inventory, sum);
    if !ok {
      return;
    }
    n := i;
    EvictionDone(s, r.store, inventory, i, total, r.maxBytes);
    told := Notify(r, deletedFiles, s, inventory, i, total);
  }

  /** The loop: from the oldest on, delete what is not the active file until the rest fits. */
  method EvictOldest(r: Rotator, inventory: seq<Item>, sum: int)
    returns (ok: bool, i: nat, total: int, deletedFiles: set<Hour>)
    requires r.store.rotation == Idle && Inventory(inventory, r.store) && sum == Total(inventory)
    modifies r
    ensures Reaches(old(r.store), r.store, r.cs) && r.store.rotation == Idle
    ensures ok ==>
              && i <= |inventory| && (total <= r.maxBytes || i == |inventory|)
              && Evicting(old(r.store), r.store, inventory, i, total, r.maxBytes)
              && deletedFiles == Files(Candidates(inventory[..i], old(r.store).clock))
  {
    ghost var s := r.store;
    ReachesSelf(s, r.cs);
    i, total, deletedFiles := 0, sum, {};
    assert inventory[..0] == [] && Evicting(s, s, inventory, 0, sum, r.maxBytes);
    while i < |inventory| && total > r.maxBytes
      invariant i <= |inventory| && r.store.rotation == Idle && Reaches(s, r.store, r.cs)
      invariant Evicting(s, r.store, inventory, i, total, r.maxBytes)
      invariant deletedFiles == Files(Candidates(inventory[..i], s.clock))
    {
      ok, total, deletedFiles := EvictOne(r, s, inventory, i, total, deletedFiles);
      if !ok {
        return;
      }
      i := i + 1;
    }
    ok := true;
  }

  /** One turn of the loop: the active file is passed over, anything else is deleted. */
  method EvictOne(r: Rotator, ghost s: Store, inventory: seq<Item>, i: nat, total: int, files: set<Hour>)
    returns (ok: bool, total': int, files': set<Hour>)
    requires i < |inventory| && total > r.maxBytes && r.store.rotation == Idle && Reaches(s, r.store, r.cs)
    requires Inventory(inventory, s) && Evicting(s, r.store, inventory, i, total, r.maxBytes)
    requires files == Files(Candidates(inventory[..i], s.clock))
    modifies r
    ensures Reaches(s, r.store, r.cs) && r.store.rotation == Idle
    ensures ok ==> Evicting(s, r.store, inventory, i + 1, total', r.maxBytes)
    ensures ok ==> files' == Files(Candidates(inventory[..i + 1], s.clock))
  {
    CandidateFiles(inventory, s.clock, i);
    var item := inventory[i];
    if FileOf(item) == r.store.clock {
      SkipExempt(s, r.store, inventory, i, total, r.maxBytes);
      return true, total, files;
    }
    ghost var before := r.store;
    EvictNext(s, before, inventory, i, total, r.maxBytes, r.cs);
    ok := r.Try(EvictStep(item));
    if ok {
      ReachesThen(s, before, EvictStep(item), r.cs);
    }
    return ok, total - item.size, files + {FileOf(item)};
  }

  lemma CandidateFiles(items: seq<Item>, active: Hour, n: nat)
    requires n < |items|
    ensures Files(Candidates(items[..n + 1], active))
         == Files(Candidates(items[..n], active)) + (if FileOf(items[n]) == active then {} else {FileOf(items[n])})
  {
    assert items[..n + 1][..n] == items[..n];
    var c := Candidates(items[..n], active);
    assert forall i :: i in c + [items[n]] <==> i in c || i == items[n];
  }

  /** notifyOrphans at the end of the pass: nothing to do if nothing was deleted. */
  method Notify(r: Rotator, files: set<Hour>, ghost s: Store, ghost items: seq<Item>, ghost n: nat, ghost total: int)
    returns (ok: bool)
    requires Reaches(s, r.store, r.cs) && r.store.pending == s.pending + files
    requires Evicted(s, r.store, items, n, total, r.maxBytes)
    modifies r
    ensures Reaches(s, r.store, r.cs) && r.store.rotation == old(r.store).rotation
    ensures Evicted(s, r.store, items, n, total, r.maxBytes)
    ensures ok ==> r.store.pending == old(r.store).pending - files
  {
    if files == {} {
      return true;
    }
    ghost var before := r.store;
    ok := r.Try(NotifyOrphans(files));
    if ok {
      ReachesThen(s, before, NotifyOrphans(files), r.cs);
    }
  }

  // ---------- a whole pass ----------

  ghost predicate NothingPastAge(s: Store, recentMaxAge: int, archiveMaxAge: int) {
    && (forall f :: Recent(f) in s.backend ==> s.backend[Recent(f)].modTime > s.now - recentMaxAge)
    && (forall f, c :: Archive(f, c) in s.backend ==> s.backend[Archive(f, c)].modTime >= s.now - archiveMaxAge)
  }

  /** RunOnce: the four phases in order; a phase that fails does not keep the later ones from
      running. Whatever fails, the pass is a run of BodyTiers steps; and unless a deletion or a
      notification failed it leaves no more notifications outstanding than it found. It is `ok` when
      no phase returned an error; then the local directory holds at most the active file, recent/ and
      archive/ hold nothing past its age, and the store fits its budget or holds nothing but the
      active hour's file. */
  method RunOnce(r: Rotator) returns (ok: bool, deleted: bool)
    requires r.store.rotation == Idle
    modifies r
    ensures r.store.rotation == Idle && Reaches(old(r.store), r.store, r.cs)
    ensures deleted ==> r.store.pending <= old(r.store).pending
    ensures ok ==> r.store.current.Keys <= {r.store.clock} && (r.maxBytes > 0 ==> Fits(r.store, r.maxBytes))
    ensures ok ==> NothingPastAge(r.store, r.recentMaxAge, r.archiveMaxAge)
  {
    var s0 := r.store;
    var promoted := r.PromoteCurrentToRecent();
    ghost var s1 := r.store;
    var compressed := r.CompressToArchive();
    ghost var s2 := r.store;
    ReachesTrans(s0, s1, s2, r.cs);
    var purged, toldOfPurge := r.PurgeExpired();
    ghost var s3 := r.store;
    ReachesTrans(s0, s2, s3, r.cs);
    var evicted, toldOfEviction, total, items, _, n := EvictBySize(r);
    ReachesTrans(s0, s3, r.store, r.cs);
    if evicted && r.maxBytes > 0 {
      FitsOrActive(s3, r.store, items, n, total, r.maxBytes);
    }
    ok := promoted && compressed && purged && evicted;
    deleted := purged && toldOfPurge && evicted && toldOfEviction;
  }

  /** A pass keeps every guarantee of the store, so references read back after it as before. With
      no notification outstanding, no metadata row names a file that has no copy left; and the rows
      of files that were not deleted keep their references. */
  lemma PassKeepsReferences(s: Store, t: Store, cs: Codecs)
    requires Inv(s, cs) && Lossless(cs) && Reaches(s, t, cs)
    ensures Inv(t, cs)
    ensures t.pending == {} ==>
              forall r :: r in t.rows && t.rows[r].Some? ==> HasCopy(t, t.rows[r].value.file)
    ensures forall w :: w in t.history && w.file !in t.removed ==>
              w.row in t.rows && t.rows[w.row] == Some(Ref(w.file, w.offset, |w.line|))
  {
    var steps :| IsRun(s, steps, cs) && End(s, steps, cs) == t;
    RunKeepsInv(s, steps, cs);
  }
}
