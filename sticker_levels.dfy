/**
 * The sticker reward table: seven ordered levels, each worth a fixed number of
 * points, the table as a list sorted by level order, and the point total of a
 * level -> count record.
 */
module StickerLevels {
  import opened Wrappers
  import Sorting

  datatype Level = Seed | Bloom | ShootingStar | Rocket | Satellite | Aurora | ToTheMoon

  datatype StickerMeta = StickerMeta(level: Level, order: nat, name: string, emoji: string, points: nat)

  /** The enum value as stored in the database and sent over JSON. */
  function Key(l: Level): string {
    match l
    case Seed => "seed"
    case Bloom => "bloom"
    case ShootingStar => "shooting_star"
    case Rocket => "rocket"
    case Satellite => "satellite"
    case Aurora => "aurora"
    case ToTheMoon => "to_the_moon"
  }

  /** The points a level is worth. */
  function Points(l: Level): nat {
    match l
    case Seed => 10
    case Bloom => 20
    case ShootingStar => 30
    case Rocket => 50
    case Satellite => 70
    case Aurora => 85
    case ToTheMoon => 100
  }

  /** `STICKER_LEVELS[l]`. */
  function Meta(l: Level): (m: StickerMeta)
    ensures m.level == l && 1 <= m.order <= 7 && m.points == Points(l)
  {
    match l
    case Seed => StickerMeta(Seed, 1, "씨앗", "\U{1F331}", 10)
    case Bloom => StickerMeta(Bloom, 2, "꽃봉오리", "\U{1F338}", 20)
    case ShootingStar => StickerMeta(ShootingStar, 3, "별똥별", "\U{1F320}", 30)
    case Rocket => StickerMeta(Rocket, 4, "로켓", "\U{1F680}", 50)
    case Satellite => StickerMeta(Satellite, 5, "위성", "\U{1F6F0}\U{FE0F}", 70)
    case Aurora => StickerMeta(Aurora, 6, "오로라", "\U{1F30C}", 85)
    case ToTheMoon => StickerMeta(ToTheMoon, 7, "투더문", "\U{1F315}", 100)
  }


  /** `STICKER_LEVELS[key]` for a key that arrived as an arbitrary string. */
  function Lookup(key: string): (r: Option<StickerMeta>)
    ensures r.Some? ==> Key(r.value.level) == key && r.value == Meta(r.value.level)
    ensures r.None? ==> forall l: Level :: Key(l) != key
  {
    if key == "seed" then Some(Meta(Seed))
    else if key == "bloom" then Some(Meta(Bloom))
    else if key == "shooting_star" then Some(Meta(ShootingStar))
    else if key == "rocket" then Some(Meta(Rocket))
    else if key == "satellite" then Some(Meta(Satellite))
    else if key == "aurora" then Some(Meta(Aurora))
    else if key == "to_the_moon" then Some(Meta(ToTheMoon))
    else None
  }

  lemma LookupKey(l: Level)
    ensures Lookup(Key(l)) == Some(Meta(l))
  {
  }

  /** The levels in the order the table declares them (`Object.values` order). */
  const Declared: seq<Level> := [Seed, Bloom, ShootingStar, Rocket, Satellite, Aurora, ToTheMoon]

  /** Where a level sits in the table. */
  function DeclaredIndex(l: Level): (i: nat)
    ensures i < |Declared| && Declared[i] == l
  {
    match l
    case Seed => 0
    case Bloom => 1
    case ShootingStar => 2
    case Rocket => 3
    case Satellite => 4
    case Aurora => 5
    case ToTheMoon => 6
  }

  /** `Object.values(STICKER_LEVELS)`: the entries in declaration order. */
  function TableValues(): (r: seq<StickerMeta>)
    ensures |r| == 7
    ensures forall i :: 0 <= i < 7 ==> r[i] == Meta(Declared[i])
  {
    seq(|Declared|, i requires 0 <= i < |Declared| => Meta(Declared[i]))
  }

  /** Sort key for `(a, b) => a.order - b.order`: ascending order is descending negated order. */
  function AscendingOrder(m: StickerMeta): int { -(m.order as int) }

  /** `STICKER_LEVELS_LIST`: the table's values sorted by `order`. */
  function LevelsList(): (r: seq<StickerMeta>)
    ensures Sorting.SortedDesc(r, AscendingOrder)
    ensures multiset(r) == multiset(TableValues())
  {
    Sorting.SortDesc(TableValues(), AscendingOrder)
  }

  /** The list is the table itself: the seven entries in declaration order. */
  lemma LevelsListShape()
    ensures LevelsList() == TableValues()
    ensures |LevelsList()| == 7
    ensures forall i :: 0 <= i < 7 ==> LevelsList()[i] == Meta(Declared[i])
  {
    TableSorted();
    Sorting.SortDescOfSorted(TableValues(), AscendingOrder);
  }

  /** Entry `i` of the list has order `i + 1` and is the `i`-th declared level. */
  lemma LevelsListOrders()
    ensures |LevelsList()| == 7
    ensures forall i :: 0 <= i < 7 ==> LevelsList()[i].order == i + 1 && LevelsList()[i].level == Declared[i]
  {
    LevelsListShape();
    TableOrders();
  }

  /** Entry `i` of the table has order `i + 1`. */
  lemma TableOrders()
    ensures forall i :: 0 <= i < 7 ==> TableValues()[i].order == i + 1
  {
    forall i | 0 <= i < 7 ensures TableValues()[i].order == i + 1 {
      assert Meta(Declared[i]).order == DeclaredIndex(Declared[i]) + 1;
    }
  }

  /** The table is declared in ascending order. */
  lemma TableSorted()
    ensures Sorting.SortedDesc(TableValues(), AscendingOrder)
  {
    var values := TableValues();
    TableOrders();
    forall i, j | 0 <= i < j < |values| ensures AscendingOrder(values[i]) >= AscendingOrder(values[j]) {
      assert values[i].order == i + 1 && values[j].order == j + 1;
    }
  }

  /** The points column of the list, in order. */
  lemma LevelsListPoints()
    ensures |LevelsList()| == 7
    ensures LevelsList()[0].points == 10 && LevelsList()[1].points == 20
    ensures LevelsList()[2].points == 30 && LevelsList()[3].points == 50
    ensures LevelsList()[4].points == 70 && LevelsList()[5].points == 85
    ensures LevelsList()[6].points == 100
  {
    LevelsListShape();
    DeclaredPoints(LevelsList());
  }

  /** A list holding the table's entries in declaration order has the points column 10 .. 100. */
  lemma DeclaredPoints(r: seq<StickerMeta>)
    requires |r| == 7 && forall i :: 0 <= i < 7 ==> r[i] == Meta(Declared[i])
    ensures r[0].points == 10 && r[1].points == 20 && r[2].points == 30 && r[3].points == 50
    ensures r[4].points == 70 && r[5].points == 85 && r[6].points == 100
  {
  }

  /** A higher level is always worth strictly more points. */
  lemma PointsIncreaseWithOrder(a: Level, b: Level)
    requires Meta(a).order < Meta(b).order
    ensures Meta(a).points < Meta(b).points
  {
  }

  // ---------------------------------------------------------------------------
  // calcTotalPoints
  // ---------------------------------------------------------------------------

  /** One `[level, count]` pair of `Object.entries(levelCounts)`; a count may be `undefined`. */
  type Entry = (string, Option<int>)

  /** `meta ? meta.points * (count || 0) : 0`. */
  function Contribution(e: Entry): int {
    match Lookup(e.0)
    case Some(m) => m.points * e.1.GetOr(0)
    case None => 0
  }

  /** `calcTotalPoints`: the `reduce` over the entries, left to right, starting at 0. */
  function CalcTotalPoints(entries: seq<Entry>): int {
    if entries == [] then 0
    else CalcTotalPoints(entries[..|entries| - 1]) + Contribution(entries[|entries| - 1])
  }

  /** The total of a concatenation is the sum of the totals. */
  lemma {:induction false} CalcTotalPointsAppend(a: seq<Entry>, b: seq<Entry>)
    ensures CalcTotalPoints(a + b) == CalcTotalPoints(a) + CalcTotalPoints(b)
    decreases |b|
  {
    if b == [] {
      assert a + b == a;
    } else {
      var b' := b[..|b| - 1];
      assert (a + b)[..|a + b| - 1] == a + b';
      CalcTotalPointsAppend(a, b');
    }
  }

  /** The total does not depend on the order of the entries. */
  lemma {:induction false} CalcTotalPointsPermutation(a: seq<Entry>, b: seq<Entry>)
    requires multiset(a) == multiset(b)
    ensures CalcTotalPoints(a) == CalcTotalPoints(b)
    decreases |a|
  {
    if a == [] {
      assert |b| == |multiset(b)| == 0;
    } else {
      var x := a[0];
      assert x in multiset(b);
      var i :| 0 <= i < |b| && b[i] == x;
      var b' := b[..i] + b[i + 1..];
      assert b == b[..i] + [x] + b[i + 1..];
      assert a == [x] + a[1..];
      calc {
        multiset{x} + multiset(a[1..]);
        multiset(a);
        multiset(b);
        multiset(b[..i] + [x] + b[i + 1..]);
        multiset(b[..i]) + multiset{x} + multiset(b[i + 1..]);
        multiset{x} + multiset(b');
      }
      assert multiset(a[1..]) == (multiset{x} + multiset(a[1..])) - multiset{x};
      assert multiset(b') == (multiset{x} + multiset(b')) - multiset{x};
      CalcTotalPointsPermutation(a[1..], b');
      CalcTotalPointsAppend([x], a[1..]);
      CalcTotalPointsAppend(b[..i] + [x], b[i + 1..]);
      CalcTotalPointsAppend(b[..i], [x]);
      CalcTotalPointsAppend(b[..i], b[i + 1..]);
    }
  }

  /** Sum of the counts given for `key` (a missing or `undefined` count is 0). */
  function CountFor(entries: seq<Entry>, key: string): int {
    if entries == [] then 0
    else CountFor(entries[..|entries| - 1], key)
         + (if entries[|entries| - 1].0 == key then entries[|entries| - 1].1.GetOr(0) else 0)
  }

  /** Σ points[level] × count[level] over the seven levels. */
  function WeightedSum(entries: seq<Entry>): int {
    10 * CountFor(entries, "seed") + 20 * CountFor(entries, "bloom")
    + 30 * CountFor(entries, "shooting_star") + 50 * CountFor(entries, "rocket")
    + 70 * CountFor(entries, "satellite") + 85 * CountFor(entries, "aurora")
    + 100 * CountFor(entries, "to_the_moon")
  }

  /** The fold computes the weighted sum; unknown keys and missing counts add nothing. */
  lemma {:induction false} CalcTotalPointsIsWeightedSum(entries: seq<Entry>)
    ensures CalcTotalPoints(entries) == WeightedSum(entries)
  {
    if entries != [] {
      CalcTotalPointsIsWeightedSum(entries[..|entries| - 1]);
    }
  }

  /** With non-negative counts the total is non-negative. */
  lemma {:induction false} CalcTotalPointsNonNegative(entries: seq<Entry>)
    requires forall k :: 0 <= k < |entries| ==> entries[k].1.GetOr(0) >= 0
    ensures CalcTotalPoints(entries) >= 0
  {
    if entries != [] {
      CalcTotalPointsNonNegative(entries[..|entries| - 1]);
    }
  }

  /** A larger count for the same key never contributes less. */
  lemma ContributionMonotone(x: Entry, y: Entry)
    requires x.0 == y.0 && x.1.GetOr(0) <= y.1.GetOr(0)
    ensures Contribution(x) <= Contribution(y)
  {
    match Lookup(x.0)
    case Some(m) =>
      var c, d := x.1.GetOr(0), y.1.GetOr(0);
      assert m.points * d - m.points * c == m.points * (d - c);
    case None =>
  }

  /** Raising counts entry by entry (same keys) never lowers the total. */
  lemma {:induction false} CalcTotalPointsMonotone(a: seq<Entry>, b: seq<Entry>)
    requires |a| == |b|
    requires forall k :: 0 <= k < |a| ==> a[k].0 == b[k].0 && a[k].1.GetOr(0) <= b[k].1.GetOr(0)
    ensures CalcTotalPoints(a) <= CalcTotalPoints(b)
  {
    if a != [] {
      var n := |a| - 1;
      var a', b' := a[..n], b[..n];
      assert forall k :: 0 <= k < |a'| ==> a'[k] == a[k] && b'[k] == b[k];
      CalcTotalPointsMonotone(a', b');
      ContributionMonotone(a[n], b[n]);
    }
  }

  /** `{ seed: 2, rocket: 1 }` is worth 2 × 10 + 1 × 50 = 70 points. */
  lemma SeedRocketExample()
    ensures CalcTotalPoints([("seed", Some(2)), ("rocket", Some(1))]) == 70
    ensures CalcTotalPoints([]) == 0
  {
    var e: seq<Entry> := [("seed", Some(2)), ("rocket", Some(1))];
    assert e[..1] == [("seed", Some(2))];
    assert e[..1][..0] == [];
  }

  // ---------------------------------------------------------------------------
  // Level -> count records
  // ---------------------------------------------------------------------------

  function CountOf(m: map<Level, nat>, l: Level): nat {
    if l in m then m[l] else 0
  }

  function EntryOf(m: map<Level, nat>, l: Level): seq<Entry> {
    if l in m then [(Key(l), Some(m[l] as int))] else []
  }

  /** `Object.entries` of a record holding the levels of `m`, in table order. */
  function Entries(m: map<Level, nat>): seq<Entry> {
    EntryOf(m, Seed) + EntryOf(m, Bloom) + EntryOf(m, ShootingStar) + EntryOf(m, Rocket)
    + EntryOf(m, Satellite) + EntryOf(m, Aurora) + EntryOf(m, ToTheMoon)
  }

  /** Σ points[level] × count[level] over a level -> count record. */
  function PointsOf(m: map<Level, nat>): nat {
    10 * CountOf(m, Seed) + 20 * CountOf(m, Bloom) + 30 * CountOf(m, ShootingStar)
    + 50 * CountOf(m, Rocket) + 70 * CountOf(m, Satellite) + 85 * CountOf(m, Aurora)
    + 100 * CountOf(m, ToTheMoon)
  }

  lemma EntryOfTotal(m: map<Level, nat>, l: Level)
    ensures CalcTotalPoints(EntryOf(m, l)) == Points(l) * CountOf(m, l)
  {
    var e := EntryOf(m, l);
    if l in m {
      assert e[..0] == [];
      LookupKey(l);
    }
  }

  /** The total of a record's entries is Σ points[level] × count[level]. */
  lemma CalcTotalPointsOfRecord(m: map<Level, nat>)
    ensures CalcTotalPoints(Entries(m)) == PointsOf(m)
  {
    var e1, e2, e3, e4 := EntryOf(m, Seed), EntryOf(m, Bloom), EntryOf(m, ShootingStar), EntryOf(m, Rocket);
    var e5, e6, e7 := EntryOf(m, Satellite), EntryOf(m, Aurora), EntryOf(m, ToTheMoon);
    EntryOfTotal(m, Seed); EntryOfTotal(m, Bloom); EntryOfTotal(m, ShootingStar); EntryOfTotal(m, Rocket);
    EntryOfTotal(m, Satellite); EntryOfTotal(m, Aurora); EntryOfTotal(m, ToTheMoon);
    CalcTotalPointsAppend(e1, e2);
    CalcTotalPointsAppend(e1 + e2, e3);
    CalcTotalPointsAppend(e1 + e2 + e3, e4);
    CalcTotalPointsAppend(e1 + e2 + e3 + e4, e5);
    CalcTotalPointsAppend(e1 + e2 + e3 + e4 + e5, e6);
    CalcTotalPointsAppend(e1 + e2 + e3 + e4 + e5 + e6, e7);
  }

  /** Level-wise sum of two records. */
  function Merge(a: map<Level, nat>, b: map<Level, nat>): (r: map<Level, nat>)
    ensures forall l: Level :: CountOf(r, l) == CountOf(a, l) + CountOf(b, l)
  {
    map l | l in a.Keys + b.Keys :: CountOf(a, l) + CountOf(b, l)
  }

  lemma PointsOfMerge(a: map<Level, nat>, b: map<Level, nat>)
    ensures PointsOf(Merge(a, b)) == PointsOf(a) + PointsOf(b)
  {
    var r := Merge(a, b);
    assert CountOf(r, Seed) == CountOf(a, Seed) + CountOf(b, Seed);
    assert CountOf(r, Bloom) == CountOf(a, Bloom) + CountOf(b, Bloom);
    assert CountOf(r, ShootingStar) == CountOf(a, ShootingStar) + CountOf(b, ShootingStar);
    assert CountOf(r, Rocket) == CountOf(a, Rocket) + CountOf(b, Rocket);
    assert CountOf(r, Satellite) == CountOf(a, Satellite) + CountOf(b, Satellite);
    assert CountOf(r, Aurora) == CountOf(a, Aurora) + CountOf(b, Aurora);
    assert CountOf(r, ToTheMoon) == CountOf(a, ToTheMoon) + CountOf(b, ToTheMoon);
  }

  /** Additivity: the total of the level-wise sum is the sum of the totals. */
  lemma CalcTotalPointsAdditive(a: map<Level, nat>, b: map<Level, nat>)
    ensures CalcTotalPoints(Entries(Merge(a, b))) == CalcTotalPoints(Entries(a)) + CalcTotalPoints(Entries(b))
  {
    var r := Merge(a, b);
    PointsOfMerge(a, b);
    CalcTotalPointsOfRecord(a);
    CalcTotalPointsOfRecord(b);
    CalcTotalPointsOfRecord(r);

  }
}
