/** The migration that ends blank and shared payment ids. */
module KeyMigration {
  import opened Common
  import opened Text
  import opened PaymentIdentity

  /** A historical payment; its primary key is its position. */
  datatype Row = Row(key: Text, createdAt: int, uuid: Text, courier: Option<nat>, provider: Text, amount: int)

  /** The order of the queries: by creation time, then by primary key. */
  predicate Earlier(rows: seq<Row>, i: nat, j: nat)
    requires i < |rows| && j < |rows|
  {
    rows[i].createdAt < rows[j].createdAt || (rows[i].createdAt == rows[j].createdAt && i < j)
  }

  /** An earlier row holds the same id. */
  predicate Repeats(rows: seq<Row>, i: nat)
    requires i < |rows|
  {
    exists j :: 0 <= j < |rows| && rows[j].key == rows[i].key && Earlier(rows, j, i)
  }

  /** The rows that get a new id: blank ones, and all but the earliest holder of an id. */
  predicate NeedsKey(rows: seq<Row>, i: nat)
    requires i < |rows|
  {
    rows[i].key == [] || Repeats(rows, i)
  }

  function Manual(hash: Text -> Text, r: Row): Text {
    ManualKey(hash, r.uuid, r.courier, r.provider, r.amount)
  }

  predicate Held(rows: seq<Row>, key: Text) {
    exists j :: 0 <= j < |rows| && rows[j].key == key
  }

  // ----- fallback ids -----------------------------------------------------------------------

  function Legacy(pk: nat, suffix: nat): (t: Text)
    ensures t != [] && t[0] == 108
  {
    Lit("legacy:") + Decimal(pk) + if suffix == 0 then [] else [58] + Decimal(suffix)
  }

  lemma LegacyInjective(pk: nat, a: nat, b: nat)
    requires Legacy(pk, a) == Legacy(pk, b)
    ensures a == b
  {
    hide Decimal, Lit;
    var n := |Lit("legacy:") + Decimal(pk)|;
    if a != 0 && b != 0 {
      assert Legacy(pk, a)[n + 1..] == Decimal(a) && Legacy(pk, b)[n + 1..] == Decimal(b);
      DecimalInjective(a, b);
    } else {
      assert |Legacy(pk, a)| == if a == 0 then n else n + 1 + |Decimal(a)|;
      assert |Legacy(pk, b)| == if b == 0 then n else n + 1 + |Decimal(b)|;
    }
  }

  lemma ManualIsNotLegacy(hash: Text -> Text, r: Row, pk: nat, suffix: nat)
    ensures Manual(hash, r) != Legacy(pk, suffix)
  {
    assert Manual(hash, r)[0] == 109 by {
      assert Lit("manual:")[0] == 109;
    }
  }

  lemma {:induction false} SubsetSize(a: set<Text>, b: set<Text>)
    requires a <= b
    ensures |a| <= |b|
  {
    if a != {} {
      var x :| x in a;
      SubsetSize(a - {x}, b - {x});
    }
  }

  /** The first free fallback id; among the first `|used| + 1` there is one. */
  method FreeLegacy(pk: nat, used: set<Text>) returns (key: Text, suffix: nat)
    ensures key == Legacy(pk, suffix) && key !in used && suffix <= |used|
    ensures forall s | 0 <= s < suffix :: Legacy(pk, s) in used
  {
    suffix := 0;
    key := Legacy(pk, 0);
    ghost var tried: set<Text> := {};
    while key in used
      invariant key == Legacy(pk, suffix)
      invariant tried <= used && |tried| == suffix
      invariant forall s | 0 <= s < suffix :: Legacy(pk, s) in used
      invariant forall x | x in tried :: exists s :: 0 <= s < suffix && x == Legacy(pk, s)
      invariant suffix <= |used|
      decreases |used| - suffix
    {
      hide Legacy;
      if key in tried {
        var s :| 0 <= s < suffix && key == Legacy(pk, s);
        LegacyInjective(pk, s, suffix);
      }
      tried := tried + {key};
      SubsetSize(tried, used);
      suffix := suffix + 1;
      key := Legacy(pk, suffix);
    }
  }

  // ----- the migration ----------------------------------------------------------------------

  function Deduped(rows: seq<Row>): (r: seq<Row>)
    ensures |r| == |rows|
  {
    seq(|rows|, i requires 0 <= i < |rows| => if NeedsKey(rows, i) then rows[i].(key := []) else rows[i])
  }

  /** The rows that need a key, in the order of the query. */
  ghost predicate InOrder(rows: seq<Row>, order: seq<nat>) {
    && (forall m | 0 <= m < |order| :: order[m] < |rows| && rows[order[m]].key == [])
    && (forall i | 0 <= i < |rows| && rows[i].key == [] :: i in order)
    && (forall m, n | 0 <= m < n < |order| && order[m] < |rows| && order[n] < |rows| :: Earlier(rows, order[m], order[n]))
  }

  /** What the migration promises of the table it leaves. */
  ghost predicate Normalised(before: seq<Row>, after: seq<Row>, hash: Text -> Text) {
    && |after| == |before|
    && (forall i | 0 <= i < |after| :: after[i] == before[i].(key := after[i].key))
    && (forall i | 0 <= i < |after| :: after[i].key != [])
    && (forall i, j | 0 <= i < j < |after| :: after[i].key != after[j].key)
    && (forall i | 0 <= i < |after| && !NeedsKey(before, i) :: after[i].key == before[i].key)
    && (forall i | 0 <= i < |after| && NeedsKey(before, i) :: ManualExactly(before, after, hash, i))
  }

  /** A row that needs a key gets the service's own key exactly when no row held that key and no earlier
      such row stands for the same event. */
  ghost predicate ManualExactly(before: seq<Row>, after: seq<Row>, hash: Text -> Text, i: nat)
    requires i < |before| && i < |after|
  {
    after[i].key == Manual(hash, before[i]) <==>
      (&& !Held(before, Manual(hash, before[i]))
       && forall j | 0 <= j < |before| && NeedsKey(before, j) && Earlier(before, j, i) ::
            Manual(hash, before[j]) != Manual(hash, before[i]))
  }

  // ----- the second pass --------------------------------------------------------------------

  ghost predicate DistinctIds(rows: seq<Row>) {
    forall i, j | 0 <= i < j < |rows| && rows[i].key != [] :: rows[i].key != rows[j].key
  }

  /** Only the first `n` of the blank rows have changed, and only their ids. */
  ghost predicate OnlyIdsChange(start: seq<Row>, rows: seq<Row>, order: seq<nat>, n: nat)
    requires n <= |order|
  {
    && |rows| == |start|
    && (forall i | 0 <= i < |rows| :: rows[i] == start[i].(key := rows[i].key))
    && (forall i | 0 <= i < |rows| && i !in order[..n] :: rows[i].key == start[i].key)
    && (forall m | 0 <= m < n && order[m] < |rows| :: rows[order[m]].key != [])
  }

  /** `used` is exactly the ids in the table. */
  ghost predicate UsedIds(rows: seq<Row>, used: set<Text>) {
    forall x :: x in used <==> x != [] && Held(rows, x)
  }

  /** No row held the manual key, and no earlier blank row has the same one. */
  ghost predicate FirstOfItsEvent(start: seq<Row>, order: seq<nat>, m: nat, hash: Text -> Text)
    requires m < |order| && forall x | 0 <= x < |order| :: order[x] < |start|
  {
    && !Held(start, Manual(hash, start[order[m]]))
    && forall x | 0 <= x < m :: Manual(hash, start[order[x]]) != Manual(hash, start[order[m]])
  }

  /** Which ids are in use, and which rows got the service's key. */
  ghost predicate ManualIds(start: seq<Row>, rows: seq<Row>, order: seq<nat>, n: nat, used: set<Text>, hash: Text -> Text)
    requires n <= |order| && |rows| == |start| && forall x | 0 <= x < |order| :: order[x] < |start|
  {
    && (forall x | x != [] && Held(start, x) :: x in used)
    && (forall m | 0 <= m < n :: Manual(hash, start[order[m]]) in used)
    && (forall x | x in used :: x != [] && (Held(start, x) || x[0] == 108 || exists m :: 0 <= m < n && x == Manual(hash, start[order[m]])))
    && (forall m | 0 <= m < n ::
          (rows[order[m]].key == Manual(hash, start[order[m]]) <==> FirstOfItsEvent(start, order, m, hash)))
  }

  ghost predicate Filled(start: seq<Row>, rows: seq<Row>, order: seq<nat>, n: nat, used: set<Text>, hash: Text -> Text) {
    && n <= |order|
    && InOrder(start, order)
    && OnlyIdsChange(start, rows, order, n)
    && UsedIds(rows, used) && DistinctIds(rows)
    && ManualIds(start, rows, order, n, used, hash)
  }

  lemma NothingFilled(rows: seq<Row>, order: seq<nat>, used: set<Text>, hash: Text -> Text)
    requires InOrder(rows, order) && DistinctIds(rows)
    requires used == set i | 0 <= i < |rows| && rows[i].key != [] :: rows[i].key
    ensures Filled(rows, rows, order, 0, used, hash)
  {
  }

  lemma OrderIsValid(start: seq<Row>, rows: seq<Row>, order: seq<nat>, n: nat, used: set<Text>, hash: Text -> Text)
    requires Filled(start, rows, order, n, used, hash) && n < |order|
    ensures order[n] < |rows| && |rows| == |start|
  {
    hide ManualIds, DistinctIds, UsedIds;
  }

  lemma OrderIsDistinct(start: seq<Row>, order: seq<nat>, n: nat)
    requires InOrder(start, order) && n < |order|
    ensures order[n] !in order[..n] && forall m | 0 <= m < n :: order[m] != order[n]
  {
    forall m | 0 <= m < n ensures order[m] != order[n] {
      assert Earlier(start, order[m], order[n]);
    }
  }

  lemma OneMoreFilled(start: seq<Row>, rows: seq<Row>, order: seq<nat>, n: nat, used: set<Text>, key: Text, hash: Text -> Text)
    requires Filled(start, rows, order, n, used, hash) && n < |order| && order[n] < |rows|
    requires key != [] && key !in used
    requires Manual(hash, rows[order[n]]) !in used ==> key == Manual(hash, rows[order[n]])
    requires Manual(hash, rows[order[n]]) in used ==> key[0] == 108 && key != Manual(hash, rows[order[n]])
    ensures Filled(start, rows[order[n] := rows[order[n]].(key := key)], order, n + 1, used + {key}, hash)
  {
    hide Manual;
    OrderIsDistinct(start, order, n);
    var pk := order[n];
    var after := rows[pk := rows[pk].(key := key)];
    SameEvent(hash, start[pk], rows[pk]);
    ShapeGrows(start, rows, order, n, key);
    IdsGrow(start, rows, order, n, used, key);
    ManualsGrow(start, rows, order, n, used, key, hash);
  }

  lemma SameEvent(hash: Text -> Text, a: Row, b: Row)
    requires b == a.(key := b.key)
    ensures Manual(hash, a) == Manual(hash, b)
  {
  }

  lemma ShapeGrows(start: seq<Row>, rows: seq<Row>, order: seq<nat>, n: nat, key: Text)
    requires n < |order| && order[n] < |rows| && OnlyIdsChange(start, rows, order, n) && key != []
    ensures OnlyIdsChange(start, rows[order[n] := rows[order[n]].(key := key)], order, n + 1)
  {
    assert order[..n + 1] == order[..n] + [order[n]];
  }

  lemma IdsGrow(start: seq<Row>, rows: seq<Row>, order: seq<nat>, n: nat, used: set<Text>, key: Text)
    requires n < |order| && order[n] < |rows| && InOrder(start, order) && OnlyIdsChange(start, rows, order, n)
    requires order[n] !in order[..n] && UsedIds(rows, used) && DistinctIds(rows) && key != [] && key !in used
    ensures var after := rows[order[n] := rows[order[n]].(key := key)]; UsedIds(after, used + {key}) && DistinctIds(after)
  {
    var pk := order[n];
    var after := rows[pk := rows[pk].(key := key)];
    assert rows[pk].key == [];
    assert !Held(rows, key);
    forall x ensures x in used + {key} <==> x != [] && Held(after, x) {
      if x in used {
        var j :| 0 <= j < |rows| && rows[j].key == x;
        assert after[j].key == x;
      }
      if x == key { assert after[pk].key == key; }
      if x != [] && Held(after, x) && x != key {
        var j :| 0 <= j < |after| && after[j].key == x;
        assert rows[j].key == x;
      }
    }
  }

  lemma ManualsGrow(start: seq<Row>, rows: seq<Row>, order: seq<nat>, n: nat, used: set<Text>, key: Text, hash: Text -> Text)
    requires n < |order| && |rows| == |start| && forall x | 0 <= x < |order| :: order[x] < |start|
    requires forall m | 0 <= m < n :: order[m] != order[n]
    requires ManualIds(start, rows, order, n, used, hash) && key != []
    requires Manual(hash, start[order[n]]) !in used ==> key == Manual(hash, start[order[n]])
    requires Manual(hash, start[order[n]]) in used ==> key[0] == 108 && key != Manual(hash, start[order[n]])
    ensures ManualIds(start, rows[order[n] := rows[order[n]].(key := key)], order, n + 1, used + {key}, hash)
  {
    hide Manual, FirstOfItsEvent, Held;
    var mine := Manual(hash, start[order[n]]);
    var after := rows[order[n] := rows[order[n]].(key := key)];
    TakenIff(start, rows, order, n, used, hash);
    forall m | 0 <= m < n + 1
      ensures after[order[m]].key == Manual(hash, start[order[m]]) <==> FirstOfItsEvent(start, order, m, hash)
      ensures Manual(hash, start[order[m]]) in used + {key}
    {
      if m < n { assert after[order[m]] == rows[order[m]]; }
    }
    forall x | x in used + {key}
      ensures x != [] && (Held(start, x) || x[0] == 108 || exists m :: 0 <= m < n + 1 && x == Manual(hash, start[order[m]]))
    {
      if x in used {
        if exists m :: 0 <= m < n && x == Manual(hash, start[order[m]]) {
          var m :| 0 <= m < n && x == Manual(hash, start[order[m]]);
        }
      } else if mine !in used {
        assert x == Manual(hash, start[order[n]]);
      }
    }
  }

  lemma TakenIff(start: seq<Row>, rows: seq<Row>, order: seq<nat>, n: nat, used: set<Text>, hash: Text -> Text)
    requires n < |order| && |rows| == |start| && forall x | 0 <= x < |order| :: order[x] < |start|
    requires ManualIds(start, rows, order, n, used, hash)
    ensures Manual(hash, start[order[n]]) in used <==> !FirstOfItsEvent(start, order, n, hash)
  {
    hide Manual, Held;
    ManualStarts(hash, start[order[n]]);
  }

  lemma ManualStarts(hash: Text -> Text, r: Row)
    ensures Manual(hash, r) != [] && Manual(hash, r)[0] == 109
  {
    assert Lit("manual:")[0] == 109;
  }

  // ----- both passes ------------------------------------------------------------------------

  /** Some holder of an id has no earlier one. */
  lemma {:induction false} EarliestExists(rows: seq<Row>, key: Text, i: nat, n: nat) returns (e: nat)
    requires i < n <= |rows| && rows[i].key == key
    ensures e < n && rows[e].key == key
    ensures forall j | 0 <= j < n && rows[j].key == key && j != e :: Earlier(rows, e, j)
    decreases n
  {
    if exists j :: 0 <= j < n - 1 && rows[j].key == key {
      var j :| 0 <= j < n - 1 && rows[j].key == key;
      e := EarliestExists(rows, key, j, n - 1);
      if rows[n - 1].key == key && Earlier(rows, n - 1, e) {
        e := n - 1;
      }
    } else {
      e := i;
    }
  }

  lemma DedupedKeepsIds(before: seq<Row>, x: Text)
    requires x != []
    ensures Held(before, x) <==> Held(Deduped(before), x)
  {
    if Held(before, x) {
      var i :| 0 <= i < |before| && before[i].key == x;
      var e := EarliestExists(before, x, i, |before|);
      assert !Repeats(before, e);
      assert Deduped(before)[e].key == x;
    }
    if Held(Deduped(before), x) {
      var i :| 0 <= i < |before| && Deduped(before)[i].key == x;
      assert before[i].key == x;
    }
  }

  lemma DedupedIsDistinct(before: seq<Row>)
    ensures DistinctIds(Deduped(before))
  {
    var r := Deduped(before);
    forall i, j | 0 <= i < j < |r| && r[i].key != [] ensures r[i].key != r[j].key {
      if before[i].key == before[j].key {
        assert Earlier(before, i, j) || Earlier(before, j, i);
      }
    }
  }

  /** The place of a blank row in the order tells which blank rows are earlier. */
  lemma PlaceInOrder(start: seq<Row>, order: seq<nat>, m: nat, x: nat)
    requires InOrder(start, order) && m < |order| && x < |order|
    ensures Earlier(start, order[x], order[m]) <==> x < m
  {
  }

  lemma FilledIsNormalised(before: seq<Row>, after: seq<Row>, order: seq<nat>, used: set<Text>, hash: Text -> Text)
    requires Filled(Deduped(before), after, order, |order|, used, hash)
    ensures Normalised(before, after, hash)
  {
    hide Manual;
    var start := Deduped(before);
    assert order[..|order|] == order;
    forall i | 0 <= i < |after| && NeedsKey(before, i) ensures ManualExactly(before, after, hash, i) {
      assert start[i].key == [] && i in order;
      var m :| 0 <= m < |order| && order[m] == i;
      EventIsFirstIff(before, order, m, hash);
      SameEvent(hash, before[i], start[i]);
    }
    forall i | 0 <= i < |after| ensures after[i].key != [] {
      if i in order {
        var m :| 0 <= m < |order| && order[m] == i;
      }
    }
  }

  lemma EventIsFirstIff(before: seq<Row>, order: seq<nat>, m: nat, hash: Text -> Text)
    requires InOrder(Deduped(before), order) && m < |order|
    ensures var i := order[m];
      FirstOfItsEvent(Deduped(before), order, m, hash) <==>
        (&& !Held(before, Manual(hash, before[i]))
         && forall j | 0 <= j < |before| && NeedsKey(before, j) && Earlier(before, j, i) ::
              Manual(hash, before[j]) != Manual(hash, before[i]))
  {
    var start, i := Deduped(before), order[m];
    ManualStarts(hash, before[i]);
    SameEvent(hash, before[i], start[i]);
    DedupedKeepsIds(before, Manual(hash, before[i]));
    hide Manual, Held;
    if FirstOfItsEvent(start, order, m, hash) {
      forall j | 0 <= j < |before| && NeedsKey(before, j) && Earlier(before, j, i)
        ensures Manual(hash, before[j]) != Manual(hash, before[i])
      {
        assert start[j].key == [] && j in order;
        var x :| 0 <= x < |order| && order[x] == j;
        PlaceInOrder(start, order, m, x);
        SameEvent(hash, before[j], start[j]);
      }
    }
    if forall j | 0 <= j < |before| && NeedsKey(before, j) && Earlier(before, j, i) :: Manual(hash, before[j]) != Manual(hash, before[i]) {
      forall x | 0 <= x < m ensures Manual(hash, start[order[x]]) != Manual(hash, start[i]) {
        PlaceInOrder(start, order, m, x);
        SameEvent(hash, before[order[x]], start[order[x]]);
        assert NeedsKey(before, order[x]);
      }
    }
  }

  class PaymentTable {
    var rows: seq<Row>

    constructor (rows: seq<Row>)
      ensures this.rows == rows
    {
      this.rows := rows;
    }

    method EarliestHolder(key: Text) returns (e: nat)
      requires Held(rows, key)
      ensures e < |rows| && rows[e].key == key
      ensures forall j | 0 <= j < |rows| && rows[j].key == key && j != e :: Earlier(rows, e, j)
    {
      var found: Option<nat> := None;
      for i := 0 to |rows|
        invariant found.None? ==> forall j | 0 <= j < i :: rows[j].key != key
        invariant found.Some? ==>
          && found.value < |rows| && rows[found.value].key == key
          && forall j | 0 <= j < i && rows[j].key == key && j != found.value :: Earlier(rows, found.value, j)
      {
        if rows[i].key == key && (found.None? || Earlier(rows, i, found.value)) {
          found := Some(i);
        }
      }
      e := found.value;
    }

    method BlankHoldersBut(key: Text, e: nat)
      requires key != []
      modifies this
      ensures |rows| == |old(rows)|
      ensures forall i | 0 <= i < |rows| ::
        rows[i] == if old(rows)[i].key == key && i != e then old(rows)[i].(key := []) else old(rows)[i]
    {
      ghost var before := rows;
      for i := 0 to |rows|
        invariant |rows| == |before|
        invariant forall j | 0 <= j < |rows| ::
          rows[j] == if j < i && before[j].key == key && j != e then before[j].(key := []) else before[j]
      {
        if rows[i].key == key && i != e {
          rows := rows[i := rows[i].(key := [])];
        }
      }
    }

    /** Keep each id on its earliest holder; blank the later ones. */
    method BlankRepeats()
      modifies this
      ensures rows == Deduped(old(rows))
    {
      hide NeedsKey, Earlier, Deduped, DedupedUpTo;
      var before := rows;
      var left := set i | 0 <= i < |before| && before[i].key != [] :: before[i].key;
      BlankStays(before, left);
      while left != {}
        invariant [] !in left && DedupedUpTo(before, rows, left)
        invariant forall key | key in left :: Held(before, key)
      {
        var key :| key in left;
        StillHeld(before, rows, left, key);
        var e := EarliestHolder(key);
        ghost var now := rows;
        BlankHoldersBut(key, e);
        OneGroupDone(before, now, rows, left, key, e);
        left := left - {key};
      }
      AllDone(before, rows);
    }

    /** The groups of repeated ids that are not in `left` are done. */
    static ghost predicate DedupedUpTo(before: seq<Row>, rows: seq<Row>, left: set<Text>) {
      && |rows| == |before|
      && forall i | 0 <= i < |rows| :: rows[i] == if before[i].key in left then before[i] else Deduped(before)[i]
    }

    static lemma StillHeld(before: seq<Row>, rows: seq<Row>, left: set<Text>, key: Text)
      requires DedupedUpTo(before, rows, left) && key in left && Held(before, key)
      ensures Held(rows, key)
    {
      hide Deduped;
      var k :| 0 <= k < |before| && before[k].key == key;
      assert rows[k].key == key;
    }

    static lemma OneGroupDone(before: seq<Row>, now: seq<Row>, rows: seq<Row>, left: set<Text>, key: Text, e: nat)
      requires DedupedUpTo(before, now, left) && key in left && key != [] && e < |now| && now[e].key == key
      requires forall j | 0 <= j < |now| && now[j].key == key && j != e :: Earlier(now, e, j)
      requires |rows| == |now| && forall i | 0 <= i < |rows| ::
        rows[i] == if now[i].key == key && i != e then now[i].(key := []) else now[i]
      ensures DedupedUpTo(before, rows, left - {key})
    {
      SameHolders(before, now, left, key, e);
      hide NeedsKey, Earlier;
    }

    static lemma AllDone(before: seq<Row>, rows: seq<Row>)
      requires DedupedUpTo(before, rows, {})
      ensures rows == Deduped(before)
    {
      hide Deduped;
    }

    static lemma BlankStays(before: seq<Row>, left: set<Text>)
      requires left == set i | 0 <= i < |before| && before[i].key != [] :: before[i].key
      ensures DedupedUpTo(before, before, left)
      ensures forall key | key in left :: Held(before, key)
    {
    }

    static lemma SameHolders(before: seq<Row>, rows: seq<Row>, left: set<Text>, key: Text, e: nat)
      requires DedupedUpTo(before, rows, left) && key in left && key != [] && e < |rows|
      requires rows[e].key == key && forall j | 0 <= j < |rows| && rows[j].key == key && j != e :: Earlier(rows, e, j)
      ensures forall i | 0 <= i < |rows| && before[i].key == key :: (NeedsKey(before, i) <==> i != e)
      ensures forall i | 0 <= i < |rows| :: (rows[i].key == key <==> before[i].key == key)
    {
      forall i | 0 <= i < |rows| && before[i].key == key ensures NeedsKey(before, i) <==> i != e {
        if i != e {
          assert Earlier(before, e, i);
        } else {
          forall j | 0 <= j < |before| && before[j].key == before[i].key ensures !Earlier(before, j, i) {
            if j != e { assert Earlier(rows, e, j); }
          }
        }
      }
    }

    /** The blank rows by creation time and primary key. */
    method OrderedBlanks() returns (order: seq<nat>)
      ensures InOrder(rows, order)
    {
      hide Earlier, Ascending, InOrder;
      order := [];
      NothingPlaced(rows);
      for i := 0 to |rows|
        invariant Ascending(rows, order, i) && forall m | 0 <= m < |order| :: order[m] < i
        invariant forall j | 0 <= j < i && rows[j].key == [] :: j in order
      {
        if rows[i].key != [] { Passed(rows, order, i); }
        if rows[i].key == [] {
          var at := |order|;
          while at > 0 && Earlier(rows, i, order[at - 1])
            invariant 0 <= at <= |order|
            invariant at < |order| ==> Earlier(rows, i, order[at])
          {
            at := at - 1;
          }
          Placed(rows, order, i, at);
          order := order[..at] + [i] + order[at..];
        }
      }
      AllPlaced(rows, order);
    }

    static lemma NothingPlaced(rows: seq<Row>)
      ensures Ascending(rows, [], 0)
    {
    }

    static lemma Passed(rows: seq<Row>, order: seq<nat>, i: nat)
      requires i < |rows| && Ascending(rows, order, i)
      ensures Ascending(rows, order, i + 1)
    {
    }

    static lemma AllPlaced(rows: seq<Row>, order: seq<nat>)
      requires Ascending(rows, order, |rows|) && forall j | 0 <= j < |rows| && rows[j].key == [] :: j in order
      ensures InOrder(rows, order)
    {
    }

    /** Blank rows below `i`, in the order of the query. */
    static ghost predicate Ascending(rows: seq<Row>, order: seq<nat>, i: nat)
      requires i <= |rows|
    {
      && (forall m | 0 <= m < |order| :: order[m] < i && rows[order[m]].key == [])
      && (forall m, n | 0 <= m < n < |order| :: Earlier(rows, order[m], order[n]))
    }

    static lemma PlacedAt(order: seq<nat>, at: nat, i: nat, m: nat)
      requires at <= |order| && m <= |order|
      ensures (order[..at] + [i] + order[at..])[m] == if m < at then order[m] else if m == at then i else order[m - 1]
    {
    }

    static lemma Placed(rows: seq<Row>, was: seq<nat>, i: nat, at: nat)
      requires i < |rows| && rows[i].key == [] && Ascending(rows, was, i) && at <= |was|
      requires at > 0 ==> !Earlier(rows, i, was[at - 1])
      requires at < |was| ==> Earlier(rows, i, was[at])
      ensures var order := was[..at] + [i] + was[at..];
        && Ascending(rows, order, i + 1) && i in order && (forall x | x in was :: x in order)
        && forall m | 0 <= m < |order| :: order[m] < i + 1
    {
      var order := was[..at] + [i] + was[at..];
      forall m | 0 <= m < |order| ensures order[m] < i + 1 && rows[order[m]].key == [] {
        PlacedAt(was, at, i, m);
      }
      forall m, n | 0 <= m < n < |order| ensures Earlier(rows, order[m], order[n]) {
        PlacedAt(was, at, i, m);
        PlacedAt(was, at, i, n);
        if n == at && m < at - 1 { assert Earlier(rows, was[m], was[at - 1]); }
        if m == at && n - 1 > at { assert Earlier(rows, was[at], was[n - 1]); }
      }
      PlacedAt(was, at, i, at);
      forall x | x in was ensures x in order {
        var m :| 0 <= m < |was| && was[m] == x;
        PlacedAt(was, at, i, if m < at then m else m + 1);
      }
    }

    method ChooseKey(r: Row, pk: nat, used: set<Text>, hash: Text -> Text) returns (key: Text)
      ensures key != [] && key !in used
      ensures Manual(hash, r) !in used ==> key == Manual(hash, r)
      ensures Manual(hash, r) in used ==> key[0] == 108 && key != Manual(hash, r)
    {
      key := Manual(hash, r);
      if key in used {
        var suffix;
        key, suffix := FreeLegacy(pk, used);
        ManualIsNotLegacy(hash, r, pk, suffix);
      }
    }

    /** Give every blank row a fresh id. */
    method FillBlanks(order: seq<nat>, hash: Text -> Text)
      requires InOrder(rows, order) && DistinctIds(rows)
      modifies this
      ensures exists used :: Filled(old(rows), rows, order, |order|, used, hash)
    {
      hide InOrder, Filled, Manual;
      ghost var start := rows;
      var used := set i | 0 <= i < |rows| && rows[i].key != [] :: rows[i].key;
      NothingFilled(rows, order, used, hash);
      for n := 0 to |order|
        invariant Filled(start, rows, order, n, used, hash)
      {
        OrderIsValid(start, rows, order, n, used, hash);
        var pk := order[n];
        var key := ChooseKey(rows[pk], pk, used, hash);
        OneMoreFilled(start, rows, order, n, used, key, hash);
        rows := rows[pk := rows[pk].(key := key)];
        used := used + {key};
      }
    }

    /** Every payment keeps all but its id; afterwards ids are non-blank and distinct, each stays on the
        earliest row that held it, and the others get the service's key where it is free. */
    method NormalizeExternalIds(hash: Text -> Text)
      modifies this
      ensures Normalised(old(rows), rows, hash)
    {
      ghost var before := rows;
      BlankRepeats();
      ghost var start := rows;
      DedupedIsDistinct(before);
      var order := OrderedBlanks();
      FillBlanks(order, hash);
      ghost var used :| Filled(start, rows, order, |order|, used, hash);
      FilledIsNormalised(before, rows, order, used, hash);
    }
  }
}
