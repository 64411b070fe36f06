/**
 * QuotationExpiryCron.checkExpiredQuotations: one bulk update that turns every
 * PENDING quotation whose validity date has passed into an EXPIRED one and
 * reports how many rows it changed. A database failure is caught and logged,
 * never rethrown. The clock reading `new Date()` is the parameter `now`.
 */
module QuotationExpiry {
  import opened Wrappers
  import opened Quotations

  /** The `where` of the updateMany: PENDING, with a validity date strictly before `now`. */
  predicate Expiring(q: Quotation, now: int) {
    q.status == PENDING && q.validityDate.Some? && q.validityDate.value < now
  }

  /** The `data` of the updateMany, applied to one row when the `where` selects it. */
  function Expire(q: Quotation, now: int): Quotation {
    if Expiring(q, now) then q.(status := EXPIRED) else q
  }

  /** The table after the updateMany: every row passed through Expire, in place. */
  function Sweep(qs: seq<Quotation>, now: int): (r: seq<Quotation>)
    ensures |r| == |qs|
    ensures forall i :: 0 <= i < |qs| ==> r[i] == Expire(qs[i], now)
  {
    if qs == [] then []
    else Sweep(qs[..|qs| - 1], now) + [Expire(qs[|qs| - 1], now)]
  }

  /** The number of rows the `where` selects: updateMany's `result.count`. */
  function ExpiringCount(qs: seq<Quotation>, now: int): (n: nat)
    ensures n <= |qs|
  {
    if qs == [] then 0
    else ExpiringCount(qs[..|qs| - 1], now) + (if Expiring(qs[|qs| - 1], now) then 1 else 0)
  }

  /** The number of positions at which two tables of the same length differ. */
  function ChangedCount(a: seq<Quotation>, b: seq<Quotation>): nat
    requires |a| == |b|
  {
    if a == [] then 0
    else ChangedCount(a[..|a| - 1], b[..|b| - 1]) + (if a[|a| - 1] != b[|b| - 1] then 1 else 0)
  }

  /**
   * A row is changed exactly when the `where` selects it, and then it becomes
   * EXPIRED; rows that are not PENDING, or have no validity date, or one not
   * yet passed, are left as they are.
   */
  lemma ExpireChangesIff(q: Quotation, now: int)
    ensures Expire(q, now) != q <==> Expiring(q, now)
    ensures Expiring(q, now) ==> Expire(q, now).status == EXPIRED
    ensures q.status != PENDING || q.validityDate.None? ==> Expire(q, now) == q
  {
  }

  /** Only the status is written: every other field of every row is unchanged. */
  lemma SweepWritesOnlyStatus(qs: seq<Quotation>, now: int)
    ensures |Sweep(qs, now)| == |qs|
    ensures forall i :: 0 <= i < |qs| ==> Sweep(qs, now)[i] == qs[i].(status := Sweep(qs, now)[i].status)
    ensures forall i :: 0 <= i < |qs| ==>
      (Sweep(qs, now)[i].status != qs[i].status <==> Expiring(qs[i], now))
  {
  }

  /** The reported count is the number of rows that changed. */
  lemma {:induction false} SweepCount(qs: seq<Quotation>, now: int)
    ensures ChangedCount(qs, Sweep(qs, now)) == ExpiringCount(qs, now)
  {
    if qs != [] {
      var n := |qs| - 1;
      var r := Sweep(qs, now);
      assert r[..n] == Sweep(qs[..n], now);
      SweepCount(qs[..n], now);
      ExpireChangesIff(qs[n], now);
    }
  }

  /** After a sweep, no row is selected any more. */
  lemma {:induction false} SweptSelectsNothing(qs: seq<Quotation>, now: int)
    ensures ExpiringCount(Sweep(qs, now), now) == 0
  {
    if qs != [] {
      var n := |qs| - 1;
      var r := Sweep(qs, now);
      assert r[..n] == Sweep(qs[..n], now);
      SweptSelectsNothing(qs[..n], now);
    }
  }

  /** Running the sweep a second time with the same `now` changes nothing and counts 0. */
  lemma SweepIdempotent(qs: seq<Quotation>, now: int)
    ensures Sweep(Sweep(qs, now), now) == Sweep(qs, now)
    ensures ExpiringCount(Sweep(qs, now), now) == 0
  {
    var r := Sweep(qs, now);
    assert forall i :: 0 <= i < |r| ==> Expire(r[i], now) == r[i];
    SweptSelectsNothing(qs, now);
  }

  /** The sweep keeps ids, items and totals, so the store's invariant survives it. */
  lemma SweepKeepsInvariant(qs: seq<Quotation>, n: nat, now: int)
    requires UniqueIds(qs) && IdsBelow(qs, n) && AllAmountsMatch(qs)
    ensures UniqueIds(Sweep(qs, now)) && IdsBelow(Sweep(qs, now), n) && AllAmountsMatch(Sweep(qs, now))
  {
    var r := Sweep(qs, now);
    forall i | 0 <= i < |r| ensures AmountMatchesItems(r[i]) {
      assert AmountMatchesItems(qs[i]);
      assert r[i].items == qs[i].items && r[i].totalAmount == qs[i].totalAmount;
    }
  }

  /** The outcome the job logs: the number of rows updated, or the caught error. */
  datatype SweepOutcome = Completed(count: nat) | Failed

  /**
   * checkExpiredQuotations over the store's quotation table. `databaseUp` is
   * whether the updateMany succeeds; when it does not, the error is caught,
   * nothing is written, and the job still returns normally.
   */
  method CheckExpiredQuotations(store: QuotationStore, now: int, databaseUp: bool)
    returns (outcome: SweepOutcome)
    requires store.Valid()
    modifies store`quotations
    ensures store.Valid()
    ensures !databaseUp ==> outcome == Failed && store.quotations == old(store.quotations)
    ensures databaseUp ==>
      store.quotations == Sweep(old(store.quotations), now) &&
      outcome == Completed(ExpiringCount(old(store.quotations), now))
  {
    if !databaseUp {
      return Failed;
    }
    var qs := store.quotations;
    var i, count := 0, 0;
    while i < |qs|
      invariant 0 <= i <= |qs|
      invariant |store.quotations| == |qs|
      invariant forall j :: 0 <= j < i ==> store.quotations[j] == Expire(qs[j], now)
      invariant forall j :: i <= j < |qs| ==> store.quotations[j] == qs[j]
      invariant count == ExpiringCount(qs[..i], now)
    {
      var q := store.quotations[i];
      assert qs[..i + 1][..i] == qs[..i];
      if Expiring(q, now) {
        store.quotations := store.quotations[i := q.(status := EXPIRED)];
        count := count + 1;
      }
      i := i + 1;
    }
    assert qs[..i] == qs;
    assert store.quotations == Sweep(qs, now);
    SweepKeepsInvariant(qs, store.nextId, now);
    outcome := Completed(count);
  }
}
