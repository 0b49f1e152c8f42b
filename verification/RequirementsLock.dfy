/**
  The session lock of a requirements directory: a Postgres advisory lock held by one pooled
  connection. A connection may take a key again that it already holds, and has to give it
  back as often; what is not given back stays with the connection when it returns to the pool.
*/
module RequirementsLock {
  import opened Wrappers

  /** The connection that holds a key, and how often more than once. */
  datatype Hold = Hold(conn: nat, more: nat)

  type Held = map<int, Hold>

  function Owner(held: Held, key: int): Option<nat> {
    if key in held then Some(held[key].conn) else None
  }

  predicate CanAcquire(held: Held, key: int, conn: nat) {
    key in held ==> held[key].conn == conn
  }

  function Acquired(held: Held, key: int, conn: nat): Held {
    held[key := Hold(conn, if key in held then held[key].more + 1 else 0)]
  }

  /** One level of the connection's hold is given back, if it has any. */
  function Unlocked(held: Held, key: int, conn: nat): Held {
    if Owner(held, key) != Some(conn) then held
    else if held[key].more == 0 then held - {key}
    else held[key := Hold(conn, held[key].more - 1)]
  }

  /** The connection was closed, and with it its session. */
  function Closed(held: Held, conn: nat): Held {
    map key | key in held && held[key].conn != conn :: held[key]
  }

  class AdvisoryLocks {
    var held: Held

    constructor ()
      ensures held == map[]
    {
      held := map[];
    }
  }

  /** `SessionLock`; without a connection it is a handle that locks nothing. */
  class SessionLock {
    var conn: Option<nat>
    const key: int

    constructor (conn: Option<nat>, key: int)
      ensures this.conn == conn && this.key == key
    {
      this.conn, this.key := conn, key;
    }

    /**
      `Release`: the connection goes back to the pool whether or not the unlock reached the database,
      which it does not when the caller's context is over; a second call changes nothing.
    */
    method Release(locks: AdvisoryLocks, reached: bool)
      modifies this, locks
      ensures conn == None
      ensures locks.held ==
        if old(conn).Some? && reached then Unlocked(old(locks.held), key, old(conn).value) else old(locks.held)
    {
      if conn.None? { return; }
      if reached && key in locks.held && locks.held[key].conn == conn.value {
        if locks.held[key].more == 0 {
          locks.held := locks.held - {key};
        } else {
          locks.held := locks.held[key := Hold(conn.value, locks.held[key].more - 1)];
        }
      }
      conn := None;
    }
  }

  /** `RequirementsDirLocker.AcquireSession` on a connection from the pool; no handle means the lock is busy. */
  method AcquireSession(locks: AdvisoryLocks, key: int, conn: nat) returns (lock: SessionLock?)
    modifies locks
    ensures lock != null <==> CanAcquire(old(locks.held), key, conn)
    ensures lock == null ==> locks.held == old(locks.held)
    ensures lock != null ==>
      fresh(lock) && lock.conn == Some(conn) && lock.key == key && locks.held == Acquired(old(locks.held), key, conn)
  {
    if key in locks.held && locks.held[key].conn != conn { return null; }
    locks.held := locks.held[key := Hold(conn, if key in locks.held then locks.held[key].more + 1 else 0)];
    lock := new SessionLock(Some(conn), key);
  }

  // ---- After a release -------------------------------------------------------------

  lemma AcquireAndUnlock(held: Held, key: int, conn: nat)
    requires CanAcquire(held, key, conn)
    ensures Unlocked(Acquired(held, key, conn), key, conn) == held
  {
    assert key !in held ==> held[key := Hold(conn, 0)] - {key} == held;
  }

  /**
    What the next acquire of a key that was free finds after one session: another connection gets
    it exactly when the unlock reached the database, the same connection in any case.
  */
  lemma NextAcquireIff(held: Held, key: int, conn: nat, reached: bool, other: nat)
    requires key !in held
    ensures var acquired := Acquired(held, key, conn);
            var released := if reached then Unlocked(acquired, key, conn) else acquired;
            CanAcquire(released, key, other) <==> reached || other == conn
  {
    AcquireAndUnlock(held, key, conn);
  }

  datatype Op = Try(conn: nat, key: int) | Unlock(conn: nat, key: int) | Close(conn: nat)

  function AfterOp(held: Held, op: Op): Held {
    match op
    case Try(conn, key) => if CanAcquire(held, key, conn) then Acquired(held, key, conn) else held
    case Unlock(conn, key) => Unlocked(held, key, conn)
    case Close(conn) => Closed(held, conn)
  }

  function AfterOps(held: Held, ops: seq<Op>): Held {
    if ops == [] then held else AfterOp(AfterOps(held, ops[..|ops| - 1]), ops[|ops| - 1])
  }

  /** How often a connection took a key, less how often it gave it back. */
  function Balance(ops: seq<Op>, conn: nat, key: int): int {
    if ops == [] then 0
    else
      Balance(ops[..|ops| - 1], conn, key) +
      if ops[|ops| - 1] == Try(conn, key) then 1 else if ops[|ops| - 1] == Unlock(conn, key) then -1 else 0
  }

  /** The connection stays open, and gives the key back no more often than it has taken it since. */
  predicate Backed(ops: seq<Op>, conn: nat, key: int) {
    && Close(conn) !in ops
    && forall n :: 0 <= n <= |ops| ==> Balance(ops[..n], conn, key) >= 0
  }

  /** A key left behind stays with its connection, however it is used, and every other connection finds it busy. */
  lemma {:induction false} LeftBehind(held: Held, ops: seq<Op>, conn: nat, key: int)
    requires Owner(held, key) == Some(conn) && Backed(ops, conn, key)
    ensures var after := AfterOps(held, ops);
            key in after && after[key].conn == conn && after[key].more == held[key].more + Balance(ops, conn, key)
    ensures forall other :: other != conn ==> !CanAcquire(AfterOps(held, ops), key, other)
  {
    assert ops[..|ops|] == ops;
    if ops != [] {
      var before := ops[..|ops| - 1];
      forall n | 0 <= n <= |before| ensures Balance(before[..n], conn, key) >= 0 {
        assert before[..n] == ops[..n];
      }
      LeftBehind(held, before, conn, key);
    }
  }

  /** It is free again once the connection is closed. */
  lemma {:induction false} ClosedFrees(held: Held, ops: seq<Op>, conn: nat, key: int, other: nat)
    requires Owner(held, key) == Some(conn) && Backed(ops, conn, key)
    ensures CanAcquire(AfterOp(AfterOps(held, ops), Close(conn)), key, other)
  {
    LeftBehind(held, ops, conn, key);
  }
}
