/** Transaction-scoped advisory locks: which keys one transaction takes, and in what order. */
module LockOrder {
  import opened Results

  // A car id after numeric coercion: an integer, or something that is not one.
  datatype RawId = Whole(n: int) | NotWhole

  /** A key of the two-argument advisory lock: namespace SESSION with a hash, or namespace CAR with an id. */
  datatype LockKey = SessionKey(hash: int) | CarKey(car: int)

  predicate Lockable(raw: RawId) {
    raw.Whole? && raw.n > 0
  }

  predicate Ascending(s: seq<int>) {
    forall i, j :: 0 <= i < j < |s| ==> s[i] < s[j]
  }

  /** The canonical order: every session key before every car key, car keys by id. */
  predicate Before(a: LockKey, b: LockKey) {
    match (a, b)
    case (SessionKey(_), CarKey(_)) => true
    case (CarKey(x), CarKey(y)) => x < y
    case _ => false
  }

  function ValidIds(raw: seq<RawId>): seq<int> {
    if raw == [] then []
    else (if Lockable(raw[0]) then [raw[0].n] else []) + ValidIds(raw[1..])
  }

  /** The elements in order of first occurrence, as a JavaScript Set keeps them. */
  function Unique(s: seq<int>): seq<int> {
    if s == [] then []
    else
      var init := Unique(s[..|s| - 1]);
      var last := s[|s| - 1];
      if last in init then init else init + [last]
  }

  function Insert(x: int, s: seq<int>): seq<int> {
    if s == [] || x <= s[0] then [x] + s else [s[0]] + Insert(x, s[1..])
  }

  function SortAscending(s: seq<int>): seq<int> {
    if s == [] then [] else Insert(s[0], SortAscending(s[1..]))
  }

  /** The car ids a transaction locks for a raw list, in the order it locks them. */
  function CarLockOrder(raw: seq<RawId>): seq<int> {
    SortAscending(Unique(ValidIds(raw)))
  }

  predicate Distinct(s: seq<int>) {
    forall i, j :: 0 <= i < j < |s| ==> s[i] != s[j]
  }

  lemma {:induction false} ValidIdsElements(raw: seq<RawId>, x: int)
    ensures x in ValidIds(raw) <==> x > 0 && Whole(x) in raw
  {
    if raw != [] {
      ValidIdsElements(raw[1..], x);
      assert raw == [raw[0]] + raw[1..];
    }
  }

  lemma {:induction false} UniqueElements(s: seq<int>)
    ensures Distinct(Unique(s)) && forall x :: x in Unique(s) <==> x in s
  {
    if s != [] {
      UniqueElements(s[..|s| - 1]);
      assert s == s[..|s| - 1] + [s[|s| - 1]];
    }
  }

  lemma {:induction false} InsertElements(x: int, s: seq<int>)
    requires Ascending(s) && x !in s
    ensures Ascending(Insert(x, s)) && forall y :: y in Insert(x, s) <==> y == x || y in s
  {
    if s != [] && x > s[0] {
      InsertElements(x, s[1..]);
      assert s == [s[0]] + s[1..];
      var r := Insert(x, s);
      forall i, j | 0 <= i < j < |r| ensures r[i] < r[j] {
        if i == 0 { assert r[j] in Insert(x, s[1..]); }
      }
    }
  }

  lemma {:induction false} SortElements(s: seq<int>)
    requires Distinct(s)
    ensures Ascending(SortAscending(s)) && forall y :: y in SortAscending(s) <==> y in s
  {
    if s != [] {
      SortElements(s[1..]);
      InsertElements(s[0], SortAscending(s[1..]));
      assert s == [s[0]] + s[1..];
    }
  }

  lemma CarLockOrderContents(raw: seq<RawId>)
    ensures Ascending(CarLockOrder(raw))
    ensures forall x :: x in CarLockOrder(raw) <==> x > 0 && Whole(x) in raw
  {
    UniqueElements(ValidIds(raw));
    SortElements(Unique(ValidIds(raw)));
    forall x ensures x in CarLockOrder(raw) <==> x > 0 && Whole(x) in raw {
      ValidIdsElements(raw, x);
    }
  }

  lemma AscendingTail(s: seq<int>, x: int)
    requires Ascending(s) && s != []
    ensures x in s[1..] <==> x in s && x != s[0]
  {
    assert s == [s[0]] + s[1..];
  }

  lemma {:induction false} AscendingIsDetermined(a: seq<int>, b: seq<int>)
    requires Ascending(a) && Ascending(b) && forall x :: x in a <==> x in b
    ensures a == b
  {
    assert a != [] ==> a[0] in a && a[0] in b;
    assert b != [] ==> b[0] in b && b[0] in a;
    if a != [] {
      assert a[0] == b[0];
      forall x ensures x in a[1..] <==> x in b[1..] {
        AscendingTail(a, x);
        AscendingTail(b, x);
      }
      AscendingIsDetermined(a[1..], b[1..]);
    }
  }

  /** Permuted, duplicated or padded lists lock the same cars in the same order, and only those do. */
  lemma SameCarsSameOrder(a: seq<RawId>, b: seq<RawId>)
    ensures CarLockOrder(a) == CarLockOrder(b) <==> forall x :: x > 0 ==> (Whole(x) in a <==> Whole(x) in b)
  {
    CarLockOrderContents(a);
    CarLockOrderContents(b);
    if forall x :: x > 0 ==> (Whole(x) in a <==> Whole(x) in b) {
      AscendingIsDetermined(CarLockOrder(a), CarLockOrder(b));
    } else {
      var x :| x > 0 && !(Whole(x) in a <==> Whole(x) in b);
      assert !(x in CarLockOrder(a) <==> x in CarLockOrder(b));
    }
  }

  function CarKeys(cars: seq<int>): (keys: seq<LockKey>)
    ensures |keys| == |cars|
    ensures forall i :: 0 <= i < |keys| ==> keys[i] == CarKey(cars[i])
  {
    seq(|cars|, i requires 0 <= i < |cars| => CarKey(cars[i]))
  }

  ghost predicate InCanonicalOrder(keys: seq<LockKey>) {
    forall i, j :: 0 <= i < j < |keys| ==> Before(keys[i], keys[j])
  }

  lemma HoldLocksInOrder(session: int, cars: seq<int>)
    requires Ascending(cars)
    ensures InCanonicalOrder([SessionKey(session)] + CarKeys(cars))
  {
  }

  datatype LockError = InvalidCarId | InvalidSessionId | InvalidReservationId | InvalidJobKey

  /** One connection inside an open transaction; `held` lists its advisory locks as they were taken. */
  class TransactionClient {
    var held: seq<LockKey>

    constructor ()
      ensures held == []
    {
      held := [];
    }

    method AcquireCarAdvisoryLock(carId: RawId) returns (r: Result<(), LockError>)
      modifies this
      ensures r.Ok? <==> Lockable(carId)
      ensures held == if Lockable(carId) then old(held) + [CarKey(carId.n)] else old(held)
    {
      if !carId.Whole? || carId.n <= 0 {
        return Err(InvalidCarId);
      }
      held := held + [CarKey(carId.n)];
      r := Ok(());
    }

    method AcquireCarAdvisoryLocks(carIds: seq<RawId>) returns (locked: seq<int>)
      modifies this
      ensures locked == CarLockOrder(carIds)
      ensures held == old(held) + CarKeys(locked)
    {
      locked := CarLockOrder(carIds);
      CarLockOrderContents(carIds);
      for i := 0 to |locked|
        invariant held == old(held) + CarKeys(locked)[..i]
      {
        assert locked[i] in locked;
        var acquired := AcquireCarAdvisoryLock(Whole(locked[i]));
      }
    }

    method AcquireSessionAdvisoryLock(sessionId: Option<string>, hashtext: string -> int)
      returns (r: Result<(), LockError>)
      modifies this
      ensures r.Ok? <==> sessionId.Some? && sessionId.value != ""
      ensures held == if r.Ok? then old(held) + [SessionKey(hashtext(sessionId.value))] else old(held)
    {
      if sessionId == None || sessionId.value == "" {
        return Err(InvalidSessionId);
      }
      held := held + [SessionKey(hashtext(sessionId.value))];
      r := Ok(());
    }

    /** The lock prologue shared by hold create and rehold: the session, then every car involved. */
    method AcquireHoldLocks(sessionId: string, hashtext: string -> int, carIds: seq<RawId>)
      returns (r: Result<seq<int>, LockError>)
      requires held == []
      modifies this
      ensures InCanonicalOrder(held)
      ensures r.Ok? <==> sessionId != ""
      ensures r.Ok? ==> held == [SessionKey(hashtext(sessionId))] + CarKeys(r.value)
      ensures r.Ok? ==> forall x :: x in r.value <==> x > 0 && Whole(x) in carIds
    {
      var session := AcquireSessionAdvisoryLock(Some(sessionId), hashtext);
      if session.Err? {
        return Err(session.error);
      }
      assert held == [SessionKey(hashtext(sessionId))];
      var cars := AcquireCarAdvisoryLocks(carIds);
      CarLockOrderContents(carIds);
      HoldLocksInOrder(hashtext(sessionId), cars);
      r := Ok(cars);
    }
  }
}
