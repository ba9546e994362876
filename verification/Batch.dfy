/**
Batch enqueue against one-by-one enqueue.

`insert_job_batch` runs one multi-row upsert per key mode, so it visits the requests in a different order than a caller
looping over `enqueue_with_options` would. For pairwise distinct job keys the order cannot matter: every request has its
own row, decided by the table the batch started from.
*/
module Batch {
  import opened Prelude
  import opened Jobs
  import opened TableInvariant

  /** A request with the id generated for it. */
  datatype Item = Item(q: Request, newId: Id)

  /** Single enqueues in sequence. */
  ghost function EnqueueAll(t: Table, items: seq<Item>, now: Time): Table
    decreases |items|
  {
    if items == [] then t else EnqueueAll(Upsert(t, items[0].newId, items[0].q, now), items[1..], now)
  }

  ghost function EnqueueAllIds(t: Table, items: seq<Item>, now: Time): (ids: seq<Id>)
    ensures |ids| == |items|
    decreases |items|
  {
    if items == [] then []
    else
      [EnqueuedId(t, items[0].newId, items[0].q)]
      + EnqueueAllIds(Upsert(t, items[0].newId, items[0].q, now), items[1..], now)
  }

  /** The two requests compete for the same row: an equal job key, or an equal id. */
  predicate Clash(a: Item, b: Item) {
    a.newId == b.newId || (a.q.jobKey.Some? && a.q.jobKey == b.q.jobKey)
  }

  ghost predicate Separate(items: seq<Item>) {
    forall i, j :: 0 <= i < j < |items| ==> !Clash(items[i], items[j])
  }

  /** The database accepts this request on its own. */
  ghost predicate Usable(t: Table, it: Item) {
    it.newId !in t && it.q.maxAttempts > 0
  }

  ghost predicate Ready(t: Table, items: seq<Item>) {
    TableOk(t) && Separate(items) && forall it :: it in items ==> Usable(t, it)
  }

  /** The row request `it` leaves behind when it is enqueued alone. */
  ghost function RowFor(t: Table, it: Item, now: Time): Row {
    var holder := KeyHolder(t, it.q.jobKey);
    if holder.Some? then Overwrite(t[holder.value], it.q) else NewRow(it.q, now)
  }

  ghost function TargetOf(t: Table, it: Item): Id {
    EnqueuedId(t, it.newId, it.q)
  }

  /** Under `KeysUnique` a row holding the key is the holder. */
  lemma HolderIs(t: Table, key: Option<string>, id: Id)
    requires KeysUnique(t) && id in t && HoldsKey(t[id], key)
    ensures KeyHolder(t, key) == Some(id)
  {
  }

  /** Enqueueing one request does not move the row of any other. */
  lemma OthersStay(t: Table, it: Item, other: Item, now: Time)
    requires TableOk(t) && Usable(t, it) && Usable(t, other) && !Clash(it, other)
    ensures var next := Upsert(t, it.newId, it.q, now);
            TargetOf(next, other) == TargetOf(t, other) && RowFor(next, other, now) == RowFor(t, other, now)
            && Usable(next, other)
    ensures TargetOf(t, it) != TargetOf(t, other)
  {
    var next := Upsert(t, it.newId, it.q, now);
    UpsertKeepsTableOk(t, it.newId, it.q, now);
    var key := other.q.jobKey;
    var before := KeyHolder(t, key);
    if before.Some? {
      assert HoldsKey(next[before.value], key);
      HolderIs(next, key, before.value);
    } else {
      forall id | id in next ensures !HoldsKey(next[id], key) {
        assert id in t ==> !HoldsKey(t[id], key);
      }
    }
  }

  lemma ReadyStep(t: Table, items: seq<Item>, now: Time)
    requires Ready(t, items) && items != []
    ensures var it := items[0]; var rest := items[1..]; var next := Upsert(t, it.newId, it.q, now);
            && Ready(next, rest)
            && (forall other :: other in rest ==>
                  && TargetOf(next, other) == TargetOf(t, other) && RowFor(next, other, now) == RowFor(t, other, now)
                  && TargetOf(t, it) != TargetOf(t, other))
  {
    var it, rest := items[0], items[1..];
    var next := Upsert(t, it.newId, it.q, now);
    assert it in items;
    UpsertKeepsTableOk(t, it.newId, it.q, now);
    forall other | other in rest
      ensures Usable(next, other)
      ensures TargetOf(next, other) == TargetOf(t, other) && RowFor(next, other, now) == RowFor(t, other, now)
      ensures TargetOf(t, it) != TargetOf(t, other)
    {
      var i :| 0 <= i < |rest| && rest[i] == other;
      assert items[i + 1] == other && !Clash(items[0], items[i + 1]);
      OthersStay(t, it, other, now);
    }
    forall i, j | 0 <= i < j < |rest| ensures !Clash(rest[i], rest[j]) {
      assert !Clash(items[i + 1], items[j + 1]);
    }
  }

  /** In `after`, every one of `items` has its own row, and the rows that no item owns are those of `t`. */
  ghost predicate Settled(t: Table, items: seq<Item>, now: Time, after: Table) {
    && (forall it :: it in items ==> TargetOf(t, it) in after && after[TargetOf(t, it)] == RowFor(t, it, now))
    && (forall id :: id in after ==>
          (id in t && after[id] == t[id]) || exists it :: it in items && id == TargetOf(t, it))
    && (forall id :: id in t ==> id in after)
  }

  /** Enqueueing one request puts its row in place and touches no other. */
  lemma OneSettles(t: Table, it: Item, now: Time)
    ensures var next := Upsert(t, it.newId, it.q, now);
            && TargetOf(t, it) in next && next[TargetOf(t, it)] == RowFor(t, it, now)
            && (forall id :: id in next ==> id == TargetOf(t, it) || (id in t && next[id] == t[id]))
            && (forall id :: id in t ==> id in next)
  {
  }

  lemma SettledStep(t: Table, items: seq<Item>, now: Time, next: Table, after: Table)
    requires items != [] && next == Upsert(t, items[0].newId, items[0].q, now)
    requires Settled(next, items[1..], now, after)
    requires forall other :: other in items[1..] ==>
               && TargetOf(next, other) == TargetOf(t, other) && RowFor(next, other, now) == RowFor(t, other, now)
               && TargetOf(t, items[0]) != TargetOf(t, other)
    ensures Settled(t, items, now, after)
  {
    hide KeyHolder, EnqueuedId, TargetOf, RowFor, Upsert;
    var it, rest := items[0], items[1..];
    OneSettles(t, it, now);
    assert items == [it] + rest;
    forall id | id in after && id != TargetOf(t, it)
      ensures (id in t && after[id] == t[id]) || exists x :: x in items && id == TargetOf(t, x)
    {
      if x :| x in rest && id == TargetOf(next, x) {
        assert x in items && id == TargetOf(t, x);
      } else {
        assert id in next && after[id] == next[id];
      }
    }
    assert it in items;
    assert !exists x :: x in rest && TargetOf(t, it) == TargetOf(next, x);
    assert TargetOf(t, it) in next && TargetOf(t, it) in after;
    assert after[TargetOf(t, it)] == next[TargetOf(t, it)];
  }

  /** Closed form of a sequence of enqueues: each request acts as if it were alone, and no other row changes. */
  lemma {:induction false} EnqueueAllSettles(t: Table, items: seq<Item>, now: Time)
    requires Ready(t, items)
    ensures Settled(t, items, now, EnqueueAll(t, items, now))
    ensures TableOk(EnqueueAll(t, items, now))
    decreases |items|
  {
    hide TableOk, Usable, KeyHolder, EnqueuedId, TargetOf, RowFor, Upsert, Settled;
    if items == [] {
      SettledEmpty(t, now);
    } else {
      var next := Upsert(t, items[0].newId, items[0].q, now);
      ReadyStep(t, items, now);
      EnqueueAllSettles(next, items[1..], now);
      SettledStep(t, items, now, next, EnqueueAll(next, items[1..], now));
    }
  }

  lemma SettledEmpty(t: Table, now: Time)
    ensures Settled(t, [], now, t)
  {
  }

  /** The ids come back in request order, each the id of the row its request owns. */
  lemma {:induction false} EnqueueAllIdsAre(t: Table, items: seq<Item>, now: Time)
    requires Ready(t, items)
    ensures forall i :: 0 <= i < |items| ==> EnqueueAllIds(t, items, now)[i] == TargetOf(t, items[i])
    decreases |items|
  {
    hide TableOk, Usable;
    if items != [] {
      ReadyStep(t, items, now);
      EnqueueAllIdsAre(Upsert(t, items[0].newId, items[0].q, now), items[1..], now);
      forall i | 0 < i < |items|
        ensures EnqueueAllIds(t, items, now)[i] == TargetOf(t, items[i])
      {
        assert items[i] == items[1..][i - 1] && items[i] in items[1..];
      }
    }
  }

  lemma SettledIsUnique(t: Table, items: seq<Item>, permuted: seq<Item>, now: Time, a: Table, b: Table)
    requires forall it :: it in items <==> it in permuted
    requires Settled(t, items, now, a) && Settled(t, permuted, now, b)
    ensures a == b
  {
    hide KeyHolder, EnqueuedId, TargetOf, RowFor;
    forall id | id in a || id in b ensures id in a && id in b && a[id] == b[id] {
      if it :| it in items && id == TargetOf(t, it) {
        assert it in permuted;
      } else {
        assert id in t;
      }
    }
  }

  /** For distinct keys the resulting table depends only on which requests there are, not on their order. */
  lemma OrderIrrelevant(t: Table, items: seq<Item>, permuted: seq<Item>, now: Time)
    requires Ready(t, items) && Ready(t, permuted)
    requires forall it :: it in items <==> it in permuted
    ensures EnqueueAll(t, items, now) == EnqueueAll(t, permuted, now)
  {
    EnqueueAllSettles(t, items, now);
    EnqueueAllSettles(t, permuted, now);
    SettledIsUnique(t, items, permuted, now, EnqueueAll(t, items, now), EnqueueAll(t, permuted, now));
  }

  // ---------------------------------------------------------------- the batch

  function OfMode(items: seq<Item>, mode: KeyMode): (chosen: seq<Item>)
    ensures forall it :: it in chosen <==> it in items && it.q.mode == mode
  {
    if items == [] then []
    else (if items[0].q.mode == mode then [items[0]] else []) + OfMode(items[1..], mode)
  }

  /** The three statements of `insert_job_batch`, in its order. */
  ghost function BatchTable(t: Table, items: seq<Item>, now: Time): Table {
    EnqueueAll(EnqueueAll(EnqueueAll(t, OfMode(items, Dedupe), now), OfMode(items, Replace), now),
               OfMode(items, PreserveRunAt), now)
  }

  lemma {:induction false} EnqueueAllAppend(t: Table, a: seq<Item>, b: seq<Item>, now: Time)
    ensures EnqueueAll(t, a + b, now) == EnqueueAll(EnqueueAll(t, a, now), b, now)
    decreases |a|
  {
    if a == [] {
      assert a + b == b;
    } else {
      EnqueueAllAppend(Upsert(t, a[0].newId, a[0].q, now), a[1..], b, now);
      assert (a + b)[1..] == a[1..] + b;
    }
  }

  lemma {:induction false} OfModeSeparate(items: seq<Item>, mode: KeyMode)
    requires Separate(items)
    ensures Separate(OfMode(items, mode))
    decreases |items|
  {
    if items != [] {
      var rest := OfMode(items[1..], mode);
      assert Separate(items[1..]) by {
        forall i, j | 0 <= i < j < |items| - 1 ensures !Clash(items[1..][i], items[1..][j]) {
          assert !Clash(items[i + 1], items[j + 1]);
        }
      }
      OfModeSeparate(items[1..], mode);
      forall k | 0 <= k < |rest| ensures !Clash(items[0], rest[k]) {
        assert rest[k] in items[1..];
        var m :| 0 <= m < |items| - 1 && items[1..][m] == rest[k];
        assert !Clash(items[0], items[m + 1]);
      }
    }
  }

  const MODES: seq<KeyMode> := [Dedupe, Replace, PreserveRunAt]

  /** The requests of the first `m` statements, in the order the database sees them. */
  function GroupedPrefix(items: seq<Item>, m: nat): (grouped: seq<Item>)
    requires m <= 3
    ensures forall it :: it in grouped <==> it in items && it.q.mode in MODES[..m]
  {
    if m == 0 then []
    else
      PrefixExtends(MODES, m - 1);
      GroupedPrefix(items, m - 1) + OfMode(items, MODES[m - 1])
  }

  lemma EveryMode(mode: KeyMode)
    ensures mode in MODES
  {
    assert MODES[0] == Dedupe && MODES[1] == Replace && MODES[2] == PreserveRunAt;
  }

  function Grouped(items: seq<Item>): (grouped: seq<Item>)
    ensures forall it :: it in grouped <==> it in items
  {
    assert MODES[..3] == MODES;
    assert forall it :: it in items ==> it.q.mode in MODES by {
      forall it | it in items ensures it.q.mode in MODES {
        EveryMode(it.q.mode);
      }
    }
    GroupedPrefix(items, 3)
  }

  /** Two groups of different modes do not clash when they come from a separate sequence. */
  lemma AppendSeparate(items: seq<Item>, a: seq<Item>, b: seq<Item>)
    requires Separate(items) && Separate(a) && Separate(b)
    requires forall x, y :: x in a && y in b ==> x in items && y in items && x.q.mode != y.q.mode
    ensures Separate(a + b)
  {
    forall i, j | 0 <= i < j < |a + b| ensures !Clash((a + b)[i], (a + b)[j]) {
      if i < |a| <= j {
        var x, y := a[i], b[j - |a|];
        assert x in a && y in b;
        var m :| 0 <= m < |items| && items[m] == x;
        var n :| 0 <= n < |items| && items[n] == y;
        assert m != n && !Clash(items[if m < n then m else n], items[if m < n then n else m]);
      }
    }
  }

  lemma {:induction false} GroupedPrefixSeparate(items: seq<Item>, m: nat)
    requires m <= 3 && Separate(items)
    ensures Separate(GroupedPrefix(items, m))
  {
    if m > 0 {
      GroupedPrefixSeparate(items, m - 1);
      OfModeSeparate(items, MODES[m - 1]);
      assert MODES[m - 1] !in MODES[..m - 1];
      AppendSeparate(items, GroupedPrefix(items, m - 1), OfMode(items, MODES[m - 1]));
    }
  }

  lemma GroupedReady(t: Table, items: seq<Item>)
    requires Ready(t, items)
    ensures Ready(t, Grouped(items))
  {
    GroupedPrefixSeparate(items, 3);
  }

  /** The batch leaves the table that enqueueing the requests one by one, in request order, would leave. */
  lemma BatchEqualsSequential(t: Table, items: seq<Item>, now: Time)
    requires Ready(t, items)
    ensures BatchTable(t, items, now) == EnqueueAll(t, items, now)
  {
    BatchIsGrouped(t, items, now);
    GroupedReady(t, items);
    OrderIrrelevant(t, items, Grouped(items), now);
  }

  lemma BatchIsGrouped(t: Table, items: seq<Item>, now: Time)
    ensures BatchTable(t, items, now) == EnqueueAll(t, Grouped(items), now)
  {
    var d, r, p := OfMode(items, Dedupe), OfMode(items, Replace), OfMode(items, PreserveRunAt);
    EnqueueAllAppend(t, d, r, now);
    EnqueueAllAppend(t, d + r, p, now);
    assert GroupedPrefix(items, 1) == d;
    assert GroupedPrefix(items, 2) == d + r;
    assert Grouped(items) == d + r + p;
  }

  // ---------------------------------------------------------------- calls at different times

  /** The requests enqueued by separate calls, each at its own database time. */
  ghost function EnqueueSeparately(t: Table, items: seq<Item>, times: seq<Time>): Table
    requires |times| == |items|
    decreases |items|
  {
    if items == [] then t
    else EnqueueSeparately(Upsert(t, items[0].newId, items[0].q, times[0]), items[1..], times[1..])
  }

  ghost function SeparateIds(t: Table, items: seq<Item>, times: seq<Time>): (ids: seq<Id>)
    requires |times| == |items|
    decreases |items|
  {
    if items == [] then []
    else
      [EnqueuedId(t, items[0].newId, items[0].q)]
      + SeparateIds(Upsert(t, items[0].newId, items[0].q, times[0]), items[1..], times[1..])
  }

  /** The same jobs, except for when they were created. */
  ghost predicate SameButCreated(a: Table, b: Table) {
    a.Keys == b.Keys && forall id :: id in a ==> a[id] == b[id].(createdAt := a[id].createdAt)
  }

  lemma UpsertSameButCreated(a: Table, b: Table, it: Item, m: Time, n: Time)
    requires KeysUnique(a) && KeysUnique(b) && SameButCreated(a, b)
    ensures EnqueuedId(a, it.newId, it.q) == EnqueuedId(b, it.newId, it.q)
    ensures SameButCreated(Upsert(a, it.newId, it.q, m), Upsert(b, it.newId, it.q, n))
  {
    var key := it.q.jobKey;
    var holder := KeyHolder(a, key);
    if holder.Some? {
      assert HoldsKey(b[holder.value], key);
      HolderIs(b, key, holder.value);
    } else {
      forall id | id in b ensures !HoldsKey(b[id], key) {
        assert id in a && !HoldsKey(a[id], key);
      }
    }
    hide KeysUnique;
  }

  lemma {:induction false} SeparateCallsSameButCreated(
      a: Table, b: Table, items: seq<Item>, now: Time, times: seq<Time>)
    requires Ready(a, items) && Ready(b, items) && SameButCreated(a, b) && |times| == |items|
    ensures SameButCreated(EnqueueAll(a, items, now), EnqueueSeparately(b, items, times))
    ensures EnqueueAllIds(a, items, now) == SeparateIds(b, items, times)
    decreases |items|
  {
    if items != [] {
      UpsertSameButCreated(a, b, items[0], now, times[0]);
      ReadyStep(a, items, now);
      ReadyStep(b, items, times[0]);
      hide Ready, SameButCreated, Upsert, EnqueuedId;
      SeparateCallsSameButCreated(Upsert(a, items[0].newId, items[0].q, now),
                                  Upsert(b, items[0].newId, items[0].q, times[0]), items[1..], now, times[1..]);
    }
  }

  /**
  The batch leaves the jobs that separate calls in request order would leave, whenever those run, and returns the same
  ids. Only `created_at` differs: all new jobs of a batch share one, so among jobs of equal priority and time a batch
  has no order of its own.
  */
  lemma BatchEqualsSeparateCalls(t: Table, items: seq<Item>, now: Time, times: seq<Time>)
    requires Ready(t, items) && |times| == |items|
    ensures SameButCreated(BatchTable(t, items, now), EnqueueSeparately(t, items, times))
    ensures EnqueueAllIds(t, items, now) == SeparateIds(t, items, times)
  {
    BatchEqualsSequential(t, items, now);
    SeparateCallsSameButCreated(t, t, items, now, times);
    hide Ready, EnqueueAll;
  }

  // ---------------------------------------------------------------- the rows a batch returns

  lemma {:induction false} EnqueueAllIdsAppend(t: Table, a: seq<Item>, b: seq<Item>, now: Time)
    ensures EnqueueAllIds(t, a + b, now) == EnqueueAllIds(t, a, now) + EnqueueAllIds(EnqueueAll(t, a, now), b, now)
    decreases |a|
  {
    hide Upsert, EnqueuedId;
    if a == [] {
      assert a + b == b;
    } else {
      EnqueueAllIdsAppend(Upsert(t, a[0].newId, a[0].q, now), a[1..], b, now);
      assert (a + b)[1..] == a[1..] + b;
    }
  }

  lemma {:induction false} ReadyAppend(t: Table, a: seq<Item>, b: seq<Item>, now: Time)
    requires Ready(t, a + b)
    ensures Ready(t, a) && Ready(EnqueueAll(t, a, now), b)
    decreases |a|
  {
    assert forall i, j :: 0 <= i < j < |a| ==> a[i] == (a + b)[i] && a[j] == (a + b)[j];
    if a == [] {
      assert a + b == b;
    } else {
      ReadyStep(t, a + b, now);
      assert (a + b)[1..] == a[1..] + b;
      ReadyAppend(Upsert(t, a[0].newId, a[0].q, now), a[1..], b, now);
    }
  }

  /** RETURNING id, job_key. */
  datatype Returned = Returned(id: Id, jobKey: Option<string>)

  ghost function ReturnedRows(t: Table, items: seq<Item>, now: Time): (rows: seq<Returned>)
    ensures |rows| == |items|
  {
    seq(|items|, i requires 0 <= i < |items| => Returned(EnqueueAllIds(t, items, now)[i], items[i].q.jobKey))
  }

  lemma ReturnedRowsAppend(t: Table, a: seq<Item>, b: seq<Item>, now: Time)
    ensures ReturnedRows(t, a + b, now) == ReturnedRows(t, a, now) + ReturnedRows(EnqueueAll(t, a, now), b, now)
  {
    EnqueueAllIdsAppend(t, a, b, now);
  }

  /** The map from key to id that the returned rows fill, later rows overriding earlier ones. */
  function IdsByKey(rows: seq<Returned>): map<string, Id> {
    if rows == [] then map[]
    else
      var last := rows[|rows| - 1];
      var before := IdsByKey(rows[..|rows| - 1]);
      if last.jobKey.Some? then before[last.jobKey.value := last.id] else before
  }

  lemma {:induction false} IdsByKeyFinds(rows: seq<Returned>, i: nat)
    requires i < |rows| && rows[i].jobKey.Some?
    requires forall j :: 0 <= j < |rows| && j != i ==> rows[j].jobKey != rows[i].jobKey
    ensures rows[i].jobKey.value in IdsByKey(rows) && IdsByKey(rows)[rows[i].jobKey.value] == rows[i].id
    decreases |rows|
  {
    if i < |rows| - 1 {
      IdsByKeyFinds(rows[..|rows| - 1], i);
    }
  }

  /**
  The id of every keyed request can be read back from the rows of the three statements, whatever order they ran in: it
  is the id a single enqueue of that request would have returned.
  */
  lemma BatchIdsByKey(t: Table, items: seq<Item>, now: Time, it: Item)
    requires Ready(t, items) && it in items && it.q.jobKey.Some?
    ensures var byKey := IdsByKey(ReturnedRows(t, Grouped(items), now));
            it.q.jobKey.value in byKey && byKey[it.q.jobKey.value] == TargetOf(t, it)
  {
    GroupedReady(t, items);
    var g := Grouped(items);
    EnqueueAllIdsAre(t, g, now);
    var rows := ReturnedRows(t, g, now);
    var i :| 0 <= i < |g| && g[i] == it;
    forall j | 0 <= j < |rows| && j != i ensures rows[j].jobKey != rows[i].jobKey {
      assert !Clash(g[if i < j then i else j], g[if i < j then j else i]);
    }
    IdsByKeyFinds(rows, i);
  }

  /** Some statement of the sequence fires the insert trigger. */
  ghost predicate EnqueueAllNotifies(t: Table, items: seq<Item>, now: Time)
    decreases |items|
  {
    items != []
    && (|| UpsertNotifies(t, items[0].q)
        || EnqueueAllNotifies(Upsert(t, items[0].newId, items[0].q, now), items[1..], now))
  }

  lemma {:induction false} EnqueueAllNotifiesAppend(t: Table, a: seq<Item>, b: seq<Item>, now: Time)
    ensures EnqueueAllNotifies(t, a + b, now) <==>
            EnqueueAllNotifies(t, a, now) || EnqueueAllNotifies(EnqueueAll(t, a, now), b, now)
    decreases |a|
  {
    if a == [] {
      assert a + b == b;
    } else {
      EnqueueAllNotifiesAppend(Upsert(t, a[0].newId, a[0].q, now), a[1..], b, now);
      assert (a + b)[1..] == a[1..] + b;
    }
  }

  /** One enqueue of the batch, taken alone on the initial table, would notify. */
  ghost predicate NotifiesAlone(t: Table, items: seq<Item>) {
    exists it :: it in items && UpsertNotifies(t, it.q)
  }

  /**
  Enqueueing the requests notifies exactly when one of them would on its own, so their order does not matter here
  either.
  */
  lemma {:induction false} EnqueueAllNotifiesAlone(t: Table, items: seq<Item>, now: Time)
    requires Ready(t, items)
    ensures EnqueueAllNotifies(t, items, now) <==> NotifiesAlone(t, items)
    decreases |items|
  {
    if items != [] {
      var it, rest := items[0], items[1..];
      var next := Upsert(t, it.newId, it.q, now);
      ReadyStep(t, items, now);
      EnqueueAllNotifiesAlone(next, rest, now);
      assert items == [it] + rest;
      forall other | other in rest ensures UpsertNotifies(next, other.q) <==> UpsertNotifies(t, other.q) {
        NotifyStays(t, items, other, now);
      }
      hide Ready, Upsert, UpsertNotifies;
      assert it in items;
    }
  }

  lemma NotifyStays(t: Table, items: seq<Item>, other: Item, now: Time)
    requires Ready(t, items) && items != [] && other in items[1..]
    ensures UpsertNotifies(Upsert(t, items[0].newId, items[0].q, now), other.q) <==> UpsertNotifies(t, other.q)
  {
    var it := items[0];
    var next := Upsert(t, it.newId, it.q, now);
    ReadyStep(t, items, now);
    assert it in items && other in items;
    OneSettles(t, it, now);
    hide Ready, Separate, TableOk;
    assert TargetOf(next, other) == TargetOf(t, other) != TargetOf(t, it);
    assert KeyHolder(t, other.q.jobKey).Some? ==> TargetOf(t, other) in t;
  }

  // ---------------------------------------------------------------- the groups, one after another

  lemma GroupedPrefixStart(t: Table, items: seq<Item>, now: Time)
    ensures GroupedPrefix(items, 0) == [] && EnqueueAll(t, [], now) == t && ReturnedRows(t, [], now) == []
    ensures IdsByKey([]) == map[] && !EnqueueAllNotifies(t, [], now)
    ensures TableOk(t) ==> Ready(t, [])
  {
  }

  lemma GroupedPrefixNext(items: seq<Item>, m: nat)
    requires m < 3
    ensures GroupedPrefix(items, m + 1) == GroupedPrefix(items, m) + OfMode(items, MODES[m])
  {
  }

  lemma NotReady(t: Table, items: seq<Item>, bad: Item)
    requires bad in items && bad.q.maxAttempts <= 0
    ensures !Ready(t, items)
  {
    assert !Usable(t, bad);
  }

  /** The next statement may run when the ones before did and its own requests are admissible. */
  lemma NextGroupReady(t: Table, items: seq<Item>, m: nat, now: Time)
    requires m < 3 && Separate(items) && Ready(t, GroupedPrefix(items, m))
    requires forall it :: it in items ==> it.newId !in t
    requires forall it :: it in OfMode(items, MODES[m]) ==> it.q.maxAttempts > 0
    ensures Ready(t, GroupedPrefix(items, m + 1))
    ensures Ready(EnqueueAll(t, GroupedPrefix(items, m), now), OfMode(items, MODES[m]))
  {
    hide TableOk;
    GroupedPrefixSeparate(items, m + 1);
    GroupedPrefixNext(items, m);
    ReadyAppend(t, GroupedPrefix(items, m), OfMode(items, MODES[m]), now);
  }

  /**
  After the third statement every request was admissible, and the result is that of the requests in their own order.
  */
  lemma AllGroupsReady(t: Table, items: seq<Item>, now: Time)
    requires Separate(items) && Ready(t, GroupedPrefix(items, 3))
    ensures Ready(t, items) && GroupedPrefix(items, 3) == Grouped(items)
    ensures EnqueueAll(t, GroupedPrefix(items, 3), now) == EnqueueAll(t, items, now)
    ensures EnqueueAllNotifies(t, GroupedPrefix(items, 3), now) <==> NotifiesAlone(t, items)
  {
    assert GroupedPrefix(items, 3) == Grouped(items);
    assert forall it :: it in items <==> it in Grouped(items);
    hide TableOk, Usable, EnqueueAll, GroupedPrefix;
    OrderIrrelevant(t, items, Grouped(items), now);
    EnqueueAllNotifiesAlone(t, Grouped(items), now);
  }
}
