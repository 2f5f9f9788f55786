/** Backup retention (internal/backup/retention.go). */
module Retention {
  import opened Prelude

  datatype Entry = Entry(key: string, t: int)

  /** Cutoffs computed from the reference time, and the calendar's bucket names. */
  datatype Calendar = Calendar(dayCutoff: int, weekCutoff: int, monthCutoff: int, day: int -> string, week: int -> string, month: int -> string)

  datatype Slot = Day(name: string) | Week(name: string) | Month(name: string) | TooOld

  function SlotOf(c: Calendar, t: int): Slot {
    if t > c.dayCutoff then Day(c.day(t))
    else if t > c.weekCutoff then Week(c.week(t))
    else if t > c.monthCutoff then Month(c.month(t))
    else TooOld
  }

  function Quota(s: Slot): nat {
    match s
    case Day(_) => 3
    case Week(_) => 1
    case Month(_) => 1
    case TooOld => 0
  }

  /** The keys that follow the naming pattern, with their times. */
  function Parsed(keys: seq<string>, parse: string -> Option<int>): seq<Entry> {
    if keys == [] then []
    else
      var n := |keys| - 1;
      Parsed(keys[..n], parse) + if parse(keys[n]).Some? then [Entry(keys[n], parse(keys[n]).value)] else []
  }

  ghost predicate NewestFirst(order: seq<Entry>) {
    forall i, j | 0 <= i < j < |order| :: order[i].t >= order[j].t
  }

  function Slots(c: Calendar, order: seq<Entry>): (r: seq<Slot>)
    ensures |r| == |order|
  {
    seq(|order|, i requires 0 <= i < |order| => SlotOf(c, order[i].t))
  }

  /** How many of the first n entries are in slot s. */
  function Seen(slots: seq<Slot>, n: nat, s: Slot): nat
    requires n <= |slots|
  {
    if n == 0 then 0 else Seen(slots, n - 1, s) + if slots[n - 1] == s then 1 else 0
  }

  /** Entry i is among the first of its slot, up to the quota. */
  predicate Kept(slots: seq<Slot>, i: nat)
    requires i < |slots|
  {
    Seen(slots, i, slots[i]) < Quota(slots[i])
  }

  function Marks(slots: seq<Slot>): (r: seq<bool>)
    ensures |r| == |slots| && forall i | 0 <= i < |r| :: r[i] == Kept(slots, i)
  {
    seq(|slots|, i requires 0 <= i < |slots| => Kept(slots, i))
  }

  /** The elements marked as kept, or the others. */
  function Pick<T>(marks: seq<bool>, xs: seq<T>, n: nat, kept: bool): seq<T>
    requires n <= |marks| == |xs|
  {
    if n == 0 then []
    else Pick(marks, xs, n - 1, kept) + if marks[n - 1] == kept then [xs[n - 1]] else []
  }

  // -------------------------------------------------------------------- theorems

  lemma {:induction false} PickNext<T>(marks: seq<bool>, xs: seq<T>, n: nat, kept: bool, x: T)
    requires 0 < n <= |marks| == |xs|
    ensures multiset(Pick(marks, xs, n, kept))[x]
         == multiset(Pick(marks, xs, n - 1, kept))[x] + if marks[n - 1] == kept && xs[n - 1] == x then 1 else 0
  {
  }

  lemma {:induction false} SeenIs(slots: seq<Slot>, n: nat, s: Slot)
    requires n <= |slots|
    ensures Seen(slots, n, s) == multiset(slots[..n])[s]
  {
    if n > 0 {
      SeenIs(slots, n - 1, s);
      assert slots[..n] == slots[..n - 1] + [slots[n - 1]];
    }
  }

  function KeptIn(slots: seq<Slot>, n: nat, s: Slot): nat
    requires n <= |slots|
  {
    if Seen(slots, n, s) < Quota(s) then Seen(slots, n, s) else Quota(s)
  }

  lemma {:induction false} KeptInNext(slots: seq<Slot>, m: nat, s: Slot)
    requires m < |slots|
    ensures KeptIn(slots, m + 1, s) == KeptIn(slots, m, s) + if Kept(slots, m) && slots[m] == s then 1 else 0
  {
  }

  /** How many of the first n elements are marked and equal x. */
  ghost function Marked<T>(marks: seq<bool>, xs: seq<T>, n: nat, x: T): nat
    requires n <= |marks| == |xs|
  {
    if n == 0 then 0 else Marked(marks, xs, n - 1, x) + if marks[n - 1] && xs[n - 1] == x then 1 else 0
  }

  lemma {:induction false} PickCounts<T>(marks: seq<bool>, xs: seq<T>, n: nat, x: T)
    requires n <= |marks| == |xs|
    ensures multiset(Pick(marks, xs, n, true))[x] == Marked(marks, xs, n, x)
  {
    if n > 0 {
      PickCounts(marks, xs, n - 1, x);
      PickNext(marks, xs, n, true, x);
    }
  }

  lemma {:induction false} MarkedFillUp(slots: seq<Slot>, marks: seq<bool>, n: nat, s: Slot)
    requires n <= |slots| && marks == Marks(slots)
    ensures Marked(marks, slots, n, s) == KeptIn(slots, n, s)
  {
    if n > 0 {
      MarkedFillUp(slots, marks, n - 1, s);
      KeptInNext(slots, n - 1, s);
    }
  }

  /** Every slot keeps as many entries as it has, up to its quota. */
  lemma {:induction false} SlotsFillUp(slots: seq<Slot>, n: nat, s: Slot)
    requires n <= |slots|
    ensures multiset(Pick(Marks(slots), slots, n, true))[s] == KeptIn(slots, n, s)
  {
    PickCounts(Marks(slots), slots, n, s);
    MarkedFillUp(slots, Marks(slots), n, s);
  }

  /**
   * A deleted backup inside the windows leaves a full quota of kept ones in its
   * slot, all of them before it in the order and so at least as new.
   */
  lemma {:induction false} DeletedIsReplaced(c: Calendar, order: seq<Entry>, i: nat)
    requires NewestFirst(order) && i < |order| && !Kept(Slots(c, order), i)
    ensures var slots := Slots(c, order); multiset(Pick(Marks(slots), slots, i, true))[slots[i]] == Quota(slots[i])
    ensures forall j | 0 <= j < i :: order[j].t >= order[i].t
  {
    SlotsFillUp(Slots(c, order), i, Slots(c, order)[i]);
  }

  /** The newest of every slot is kept, and the too old never are. */
  lemma {:induction false} NewestOfSlotIsKept(slots: seq<Slot>, i: nat)
    requires i < |slots|
    ensures slots[i].TooOld? ==> !Kept(slots, i)
    ensures !slots[i].TooOld? && slots[i] !in slots[..i] ==> Kept(slots, i)
  {
    SeenIs(slots, i, slots[i]);
  }

  /** How many of the first n backups are newer than the day cutoff and of the same day as t. */
  ghost function OfSameDay(c: Calendar, order: seq<Entry>, n: nat, t: int): nat
    requires n <= |order|
  {
    if n == 0 then 0
    else OfSameDay(c, order, n - 1, t) + if order[n - 1].t > c.dayCutoff && c.day(order[n - 1].t) == c.day(t) then 1 else 0
  }

  /** u is in the weekly window and of the week of t. */
  ghost predicate SameWeek(c: Calendar, u: int, t: int) {
    c.weekCutoff < u <= c.dayCutoff && c.week(u) == c.week(t)
  }

  /** u is in the monthly window and of the month of t. */
  ghost predicate SameMonth(c: Calendar, u: int, t: int) {
    c.monthCutoff < u && u <= c.dayCutoff && u <= c.weekCutoff && c.month(u) == c.month(t)
  }

  /**
   * The policy on times: three a day within the first window, then one a week
   * within the second, then one a month within the third, and nothing older.
   */
  ghost predicate Stays(c: Calendar, order: seq<Entry>, i: nat)
    requires i < |order|
  {
    var t := order[i].t;
    if t > c.dayCutoff then OfSameDay(c, order, i, t) <= 2
    else if t > c.weekCutoff then (forall j | 0 <= j < i :: !SameWeek(c, order[j].t, t))
    else t > c.monthCutoff && forall j | 0 <= j < i :: !SameMonth(c, order[j].t, t)
  }

  lemma {:induction false} SeenDay(c: Calendar, order: seq<Entry>, n: nat, t: int)
    requires n <= |order|
    ensures Seen(Slots(c, order), n, Day(c.day(t))) == OfSameDay(c, order, n, t)
  {
    if n > 0 { SeenDay(c, order, n - 1, t); }
  }

  lemma {:induction false} SeenAny(slots: seq<Slot>, n: nat, s: Slot)
    requires n <= |slots|
    ensures Seen(slots, n, s) == 0 <==> forall j | 0 <= j < n :: slots[j] != s
  {
    if n > 0 { SeenAny(slots, n - 1, s); }
  }

  /** The greedy pass keeps exactly what the policy says. */
  lemma {:induction false} KeptOnTimes(c: Calendar, order: seq<Entry>, i: nat)
    requires i < |order|
    ensures Kept(Slots(c, order), i) <==> Stays(c, order, i)
  {
    var t, slots := order[i].t, Slots(c, order);
    SeenDay(c, order, i, t);
    SeenAny(slots, i, slots[i]);
    if t > c.dayCutoff {
    } else if t > c.weekCutoff {
      assert forall j | 0 <= j < i :: slots[j] == slots[i] <==> SameWeek(c, order[j].t, t);
    } else if t > c.monthCutoff {
      assert forall j | 0 <= j < i :: slots[j] == slots[i] <==> SameMonth(c, order[j].t, t);
    }
  }

  lemma {:induction false} Picked<T>(marks: seq<bool>, xs: seq<T>, n: nat, kept: bool, x: T)
    requires n <= |marks| == |xs|
    ensures x in Pick(marks, xs, n, kept) <==> exists i :: 0 <= i < n && xs[i] == x && marks[i] == kept
  {
    if n > 0 { Picked(marks, xs, n - 1, kept, x); }
  }

  lemma {:induction false} PickSizes<T>(marks: seq<bool>, xs: seq<T>, n: nat)
    requires n <= |marks| == |xs|
    ensures |Pick(marks, xs, n, true)| + |Pick(marks, xs, n, false)| == n
  {
    if n > 0 { PickSizes(marks, xs, n - 1); }
  }

  /** Each of a list of distinct keys is either kept or deleted, as marked, and nothing else is. */
  lemma {:induction false} KeysArePartitioned(marks: seq<bool>, keys: seq<string>)
    requires |marks| == |keys| && NoDup(keys)
    ensures var keep, delete := Pick(marks, keys, |keys|, true), Pick(marks, keys, |keys|, false);
      && |keep| + |delete| == |keys|
      && (forall i | 0 <= i < |keys| :: (keys[i] in keep <==> marks[i]) && (keys[i] in delete <==> !marks[i]))
      && (forall k | k in keep || k in delete :: k in keys)
  {
    PickSizes(marks, keys, |keys|);
    forall i | 0 <= i < |keys|
      ensures keys[i] in Pick(marks, keys, |keys|, true) <==> marks[i]
      ensures keys[i] in Pick(marks, keys, |keys|, false) <==> !marks[i]
    {
      Picked(marks, keys, |keys|, true, keys[i]);
      Picked(marks, keys, |keys|, false, keys[i]);
    }
    forall k | k in Pick(marks, keys, |keys|, true) || k in Pick(marks, keys, |keys|, false) ensures k in keys {
      Picked(marks, keys, |keys|, true, k);
      Picked(marks, keys, |keys|, false, k);
    }
  }

  lemma {:induction false} ParsedKeys(keys: seq<string>, parse: string -> Option<int>, e: Entry)
    ensures e in Parsed(keys, parse) <==> e.key in keys && parse(e.key) == Some(e.t)
  {
    if keys != [] {
      var n := |keys| - 1;
      ParsedKeys(keys[..n], parse, e);
      assert keys == keys[..n] + [keys[n]];
    }
  }

  // --------------------------------------------------------------- reclassifying

  lemma {:induction false} SlotsPick(c: Calendar, order: seq<Entry>, marks: seq<bool>, n: nat)
    requires n <= |order| == |marks|
    ensures Slots(c, Pick(marks, order, n, true)) == Pick(marks, Slots(c, order), n, true)
  {
    if n > 0 {
      SlotsPick(c, order, marks, n - 1);
      SlotsJoin(c, Pick(marks, order, n - 1, true), [order[n - 1]]);
    }
  }

  lemma {:induction false} SlotsJoin(c: Calendar, a: seq<Entry>, b: seq<Entry>)
    ensures Slots(c, a + b) == Slots(c, a) + Slots(c, b)
  {
  }

  function Without<T>(b: seq<T>, j: nat): seq<T>
    requires j < |b|
  {
    b[..j] + b[j + 1..]
  }

  lemma {:induction false} RemoveAt<T>(b: seq<T>, j: nat)
    requires j < |b|
    ensures multiset(b) == multiset(Without(b, j)) + multiset{b[j]}
  {
    assert b == b[..j] + ([b[j]] + b[j + 1..]);
  }

  lemma {:induction false} Cancel<T>(a: multiset<T>, b: multiset<T>, x: T)
    requires a + multiset{x} == b + multiset{x}
    ensures a == b
  {
    assert a == a + multiset{x} - multiset{x};
    assert b == b + multiset{x} - multiset{x};
  }

  lemma {:induction false} SlotsWithout(c: Calendar, b: seq<Entry>, j: nat)
    requires j < |b|
    ensures multiset(Slots(c, b)) == multiset(Slots(c, Without(b, j))) + multiset{SlotOf(c, b[j].t)}
  {
    RemoveAt(Slots(c, b), j);
    assert Without(Slots(c, b), j) == Slots(c, Without(b, j));
  }

  lemma {:induction false} EntriesWithout(a: seq<Entry>, b: seq<Entry>, i: nat, j: nat)
    requires multiset(a) == multiset(b) && i < |a| && j < |b| && a[i] == b[j]
    ensures multiset(Without(a, i)) == multiset(Without(b, j))
  {
    RemoveAt(a, i);
    RemoveAt(b, j);
    Cancel(multiset(Without(a, i)), multiset(Without(b, j)), a[i]);
  }

  /** The slots of a list do not depend on its order. */
  lemma {:induction false} SlotsAnyOrder(c: Calendar, a: seq<Entry>, b: seq<Entry>)
    requires multiset(a) == multiset(b)
    ensures multiset(Slots(c, a)) == multiset(Slots(c, b))
    decreases |a|
  {
    if a == [] {
      assert |multiset(b)| == 0;
    } else {
      assert a[0] in multiset(b);
      var j :| 0 <= j < |b| && b[j] == a[0];
      EntriesWithout(a, b, 0, j);
      var a', b' := Without(a, 0), Without(b, j);
      assert multiset(Slots(c, a')) == multiset(Slots(c, b')) by { SlotsAnyOrder(c, a', b'); }
      SlotsWithout(c, a, 0);
      SlotsWithout(c, b, j);
    }
  }

  lemma {:induction false} SeenGrows(slots: seq<Slot>, i: nat, n: nat, s: Slot)
    requires i <= n <= |slots|
    ensures Seen(slots, i, s) <= Seen(slots, n, s)
  {
    if i < n { SeenGrows(slots, i, n - 1, s); }
  }

  /** A list with no slot over its quota is kept whole. */
  lemma {:induction false} WithinQuotaIsKept(slots: seq<Slot>, i: nat)
    requires i < |slots| && multiset(slots)[slots[i]] <= Quota(slots[i])
    ensures Kept(slots, i)
  {
    SeenGrows(slots, i + 1, |slots|, slots[i]);
    SeenIs(slots, |slots|, slots[i]);
    assert slots[..|slots|] == slots;
  }

  /**
   * Classifying the kept backups again, however the sort arranges equal times,
   * keeps them all.
   */
  lemma {:induction false} KeepingIsIdempotent(c: Calendar, order: seq<Entry>, again: seq<Entry>, i: nat)
    requires multiset(again) == multiset(Pick(Marks(Slots(c, order)), order, |order|, true)) && i < |again|
    ensures Kept(Slots(c, again), i)
  {
    var slots := Slots(c, order);
    SlotsAnyOrder(c, again, Pick(Marks(slots), order, |order|, true));
    SlotsPick(c, order, Marks(slots), |order|);
    SlotsFillUp(slots, |order|, Slots(c, again)[i]);
    WithinQuotaIsKept(Slots(c, again), i);
  }

  // ------------------------------------------------------------------ operations

  method ParseBackups(keys: seq<string>, parse: string -> Option<int>) returns (backups: seq<Entry>)
    ensures backups == Parsed(keys, parse)
  {
    backups := [];
    var i := 0;
    while i < |keys|
      invariant 0 <= i <= |keys| && backups == Parsed(keys[..i], parse)
    {
      assert keys[..i + 1][..i] == keys[..i];
      var t := parse(keys[i]);
      if t.Some? { backups := backups + [Entry(keys[i], t.value)]; }
      i := i + 1;
    }
    assert keys[..|keys|] == keys;
  }

  /** keptDays, keptWeeks and keptMonths. */
  datatype Buckets = Buckets(days: map<string, nat>, weeks: set<string>, months: set<string>)

  function Count(b: Buckets, s: Slot): nat {
    match s
    case Day(d) => if d in b.days then b.days[d] else 0
    case Week(w) => if w in b.weeks then 1 else 0
    case Month(m) => if m in b.months then 1 else 0
    case TooOld => 0
  }

  /** The buckets after the first n entries. */
  ghost predicate Counted(slots: seq<Slot>, n: nat, b: Buckets)
    requires n <= |slots|
  {
    forall s :: Count(b, s) == KeptIn(slots, n, s)
  }

  /** The rules for one backup, newest first. */
  method Consider(c: Calendar, t: int, b: Buckets) returns (kept: bool, after: Buckets)
    ensures kept <==> Count(b, SlotOf(c, t)) < Quota(SlotOf(c, t))
    ensures forall s :: Count(after, s) == Count(b, s) + if kept && s == SlotOf(c, t) then 1 else 0
  {
    kept, after := false, b;
    if t > c.dayCutoff {
      var dk := c.day(t);
      var n := if dk in b.days then b.days[dk] else 0;
      if n < 3 {
        kept, after := true, b.(days := b.days[dk := n + 1]);
      }
    } else if t > c.weekCutoff {
      var wk := c.week(t);
      if wk !in b.weeks {
        kept, after := true, b.(weeks := b.weeks + {wk});
      }
    } else if t > c.monthCutoff {
      var mk := c.month(t);
      if mk !in b.months {
        kept, after := true, b.(months := b.months + {mk});
      }
    }
  }

  lemma {:induction false} CountedNext(slots: seq<Slot>, n: nat, b: Buckets, after: Buckets)
    requires n < |slots| && Counted(slots, n, b)
    requires forall s :: Count(after, s) == Count(b, s) + if Count(b, slots[n]) < Quota(slots[n]) && s == slots[n] then 1 else 0
    ensures Kept(slots, n) <==> Count(b, slots[n]) < Quota(slots[n])
    ensures Counted(slots, n + 1, after)
  {
    forall s: Slot ensures Count(after, s) == KeptIn(slots, n + 1, s) {
      assert Count(b, s) == KeptIn(slots, n, s);
    }
    assert Count(b, slots[n]) == KeptIn(slots, n, slots[n]);
  }

  /** The keys of the kept among the first n entries. */
  ghost predicate KeepsUpTo(order: seq<Entry>, slots: seq<Slot>, n: nat, keepSet: set<string>)
    requires n <= |order| == |slots|
  {
    forall k :: k in keepSet <==> exists j :: 0 <= j < n && order[j].key == k && Kept(slots, j)
  }

  /** The greedy pass; `order` is what the sort left. */
  method ChooseKept(c: Calendar, order: seq<Entry>) returns (keepSet: set<string>)
    ensures KeepsUpTo(order, Slots(c, order), |order|, keepSet)
  {
    ghost var slots := Slots(c, order);
    keepSet := {};
    var buckets := Buckets(map[], {}, {});
    var i := 0;
    while i < |order|
      invariant 0 <= i <= |order| && Counted(slots, i, buckets) && KeepsUpTo(order, slots, i, keepSet)
    {
      var kept, after := Consider(c, order[i].t, buckets);
      CountedNext(slots, i, buckets, after);
      if kept { keepSet := keepSet + {order[i].key}; }
      buckets, i := after, i + 1;
    }
  }

  /** No key is listed twice. */
  ghost predicate DistinctKeys(order: seq<Entry>) {
    forall i, j | 0 <= i < |order| && 0 <= j < |order| && order[i].key == order[j].key :: i == j
  }

  function KeysOf(order: seq<Entry>): (r: seq<string>)
    ensures |r| == |order|
  {
    seq(|order|, i requires 0 <= i < |order| => order[i].key)
  }

  lemma {:induction false} OnlyParsedKeys(keys: seq<string>, parse: string -> Option<int>, order: seq<Entry>)
    requires multiset(order) == multiset(Parsed(keys, parse))
    ensures forall k | k in KeysOf(order) :: k in keys && parse(k).Some?
  {
    forall i | 0 <= i < |order| ensures order[i].key in keys && parse(order[i].key).Some? {
      assert order[i] in multiset(order);
      ParsedKeys(keys, parse, order[i]);
    }
  }

  /** The last loop: keys in keepSet are kept, the others deleted. */
  method Divide(order: seq<Entry>, keepSet: set<string>, ghost marks: seq<bool>) returns (keep: seq<string>, delete: seq<string>)
    requires |marks| == |order|
    requires forall i | 0 <= i < |order| :: order[i].key in keepSet <==> marks[i]
    ensures keep == Pick(marks, KeysOf(order), |order|, true) && delete == Pick(marks, KeysOf(order), |order|, false)
  {
    keep, delete := [], [];
    var i := 0;
    while i < |order|
      invariant 0 <= i <= |order|
      invariant keep == Pick(marks, KeysOf(order), i, true) && delete == Pick(marks, KeysOf(order), i, false)
    {
      if order[i].key in keepSet {
        keep := keep + [order[i].key];
      } else {
        delete := delete + [order[i].key];
      }
      i := i + 1;
    }
  }

  /** What a classification of these keys returns; `order` is what its sort left. */
  ghost predicate Classified(keys: seq<string>, parse: string -> Option<int>, c: Calendar, order: seq<Entry>,
                             keep: seq<string>, delete: seq<string>) {
    && multiset(order) == multiset(Parsed(keys, parse)) && NewestFirst(order)
    && keep == Pick(Marks(Slots(c, order)), KeysOf(order), |order|, true)
    && delete == Pick(Marks(Slots(c, order)), KeysOf(order), |order|, false)
  }

  /** Backup i is kept when the policy says so, and deleted when not. */
  ghost predicate Judged(c: Calendar, order: seq<Entry>, i: nat, keep: seq<string>, delete: seq<string>)
    requires i < |order|
  {
    (order[i].key in keep <==> Stays(c, order, i)) && (order[i].key in delete <==> !Stays(c, order, i))
  }

  lemma {:induction false} PolicyDecides(c: Calendar, order: seq<Entry>)
    requires DistinctKeys(order)
    ensures var marks := Marks(Slots(c, order)); var keep, delete := Pick(marks, KeysOf(order), |order|, true), Pick(marks, KeysOf(order), |order|, false);
      |keep| + |delete| == |order| && forall i | 0 <= i < |order| :: Judged(c, order, i, keep, delete)
  {
    var marks, ks := Marks(Slots(c, order)), KeysOf(order);
    assert forall i | 0 <= i < |ks| :: ks[i] == order[i].key;
    KeysArePartitioned(marks, ks);
    forall i | 0 <= i < |order| ensures Judged(c, order, i, Pick(marks, ks, |ks|, true), Pick(marks, ks, |ks|, false)) {
      KeptOnTimes(c, order, i);
      assert ks[i] == order[i].key;
    }
  }

  /**
   * The keys of an object listing are distinct.  `order` is any newest-first
   * arrangement of the parsed backups, as the sort is not stable.
   */
  method ClassifyBackups(keys: seq<string>, parse: string -> Option<int>, c: Calendar, order: seq<Entry>)
    returns (keep: seq<string>, delete: seq<string>)
    requires multiset(order) == multiset(Parsed(keys, parse)) && NewestFirst(order) && DistinctKeys(order)
    ensures Classified(keys, parse, c, order, keep, delete)
    ensures forall k | k in KeysOf(order) :: k in keys && parse(k).Some?
    ensures |keep| + |delete| == |order|
    ensures forall i | 0 <= i < |order| :: Judged(c, order, i, keep, delete)
  {
    OnlyParsedKeys(keys, parse, order);
    PolicyDecides(c, order);
    var backups := ParseBackups(keys, parse);
    if |backups| == 0 {
      assert |multiset(order)| == 0;
      return [], [];
    }
    var keepSet := ChooseKept(c, order);
    keep, delete := Divide(order, keepSet, Marks(Slots(c, order)));
  }

  // ------------------------------------------------------------ classifying twice

  lemma {:induction false} ParsedNext(keys: seq<string>, e: Entry, parse: string -> Option<int>)
    requires parse(e.key) == Some(e.t)
    ensures Parsed(keys + [e.key], parse) == Parsed(keys, parse) + [e]
  {
    assert (keys + [e.key])[..|keys|] == keys;
  }

  /** The kept keys parse to the kept backups. */
  lemma {:induction false} ParsedPick(marks: seq<bool>, order: seq<Entry>, n: nat, parse: string -> Option<int>)
    requires n <= |marks| == |order| && forall i | 0 <= i < |order| :: parse(order[i].key) == Some(order[i].t)
    ensures Parsed(Pick(marks, KeysOf(order), n, true), parse) == Pick(marks, order, n, true)
  {
    if n > 0 {
      var m, keys := n - 1, KeysOf(order);
      var before, entries := Pick(marks, keys, m, true), Pick(marks, order, m, true);
      assert Parsed(before, parse) == entries by { ParsedPick(marks, order, m, parse); }
      if marks[m] {
        assert Pick(marks, keys, n, true) == before + [order[m].key];
        ParsedNext(before, order[m], parse);
      } else {
        assert Pick(marks, keys, n, true) == before && Pick(marks, order, n, true) == entries;
      }
    }
  }

  lemma {:induction false} AllPicked<T>(marks: seq<bool>, xs: seq<T>, n: nat)
    requires n <= |marks| == |xs| && forall i | 0 <= i < n :: marks[i]
    ensures Pick(marks, xs, n, true) == xs[..n] && Pick(marks, xs, n, false) == []
  {
    if n > 0 { AllPicked(marks, xs, n - 1); }
  }

  lemma {:induction false} SameKeys(keys: seq<string>, parse: string -> Option<int>, order: seq<Entry>)
    requires multiset(order) == multiset(Parsed(keys, parse)) && forall k | k in keys :: parse(k).Some?
    ensures Elements(KeysOf(order)) == Elements(keys)
  {
    OnlyParsedKeys(keys, parse, order);
    forall k | k in keys ensures k in KeysOf(order) {
      var e := Entry(k, parse(k).value);
      ParsedKeys(keys, parse, e);
      assert e in multiset(order);
      var i :| 0 <= i < |order| && order[i] == e;
      assert KeysOf(order)[i] == k;
    }
  }

  /**
   * Cleaning up what a clean-up left changes nothing: the kept keys, classified
   * again by the same calendar and whatever their second sort makes of equal
   * times, are all kept.
   */
  lemma {:induction false} ClassifyTwice(keys: seq<string>, parse: string -> Option<int>, c: Calendar, order: seq<Entry>,
                                         keep: seq<string>, delete: seq<string>, again: seq<Entry>, keep2: seq<string>, delete2: seq<string>)
    requires Classified(keys, parse, c, order, keep, delete) && Classified(keep, parse, c, again, keep2, delete2)
    ensures delete2 == [] && Elements(keep2) == Elements(keep)
  {
    var marks := Marks(Slots(c, order));
    forall i | 0 <= i < |order| ensures parse(order[i].key) == Some(order[i].t) {
      assert order[i] in multiset(order);
      ParsedKeys(keys, parse, order[i]);
    }
    ParsedPick(marks, order, |order|, parse);
    forall i | 0 <= i < |again| ensures Marks(Slots(c, again))[i] { KeepingIsIdempotent(c, order, again, i); }
    AllPicked(Marks(Slots(c, again)), KeysOf(again), |again|);
    assert KeysOf(again)[..|again|] == KeysOf(again);
    forall k | k in keep ensures parse(k).Some? { Picked(marks, KeysOf(order), |order|, true, k); }
    SameKeys(keep, parse, again);
  }
}
