/**
 * The user table and the scan the handler sends to it, reduced to the selection
 * and projection the scan command asks for.
 */
module UserStore {

  /** A user record as stored; the handler only reads these. */
  datatype UserRecord = UserRecord(authId: string, username: string, isActive: bool)

  /** A returned item: the projection `auth_id, username`. */
  datatype Item = Item(authId: string, username: string)

  /** The filter values of the scan: `username = :username AND isActive = :isActive`. */
  datatype ScanCommand = ScanCommand(username: string, isActive: bool)

  /** The store as one invocation sees it: a table to scan, or a call that throws. */
  datatype Store = Reachable(table: seq<UserRecord>) | Unreachable(message: string)

  /** The filter expression: the record's username and activity equal the command's values. */
  predicate Selects(cmd: ScanCommand, u: UserRecord)
  {
    u.username == cmd.username && u.isActive == cmd.isActive
  }

  /** The projection expression: only `auth_id` and `username` are returned. */
  function Project(u: UserRecord): Item
  {
    Item(u.authId, u.username)
  }

  /**
   * The items a scan with `cmd` returns: no more items than records, each the projection
   * of a selected record, and the projection of every selected record among them.
   */
  function Scan(table: seq<UserRecord>, cmd: ScanCommand): (items: seq<Item>)
    ensures |items| <= |table|
    ensures items != [] <==> exists i :: 0 <= i < |table| && Selects(cmd, table[i])
    ensures forall k :: 0 <= k < |items| ==>
      exists i :: 0 <= i < |table| && Selects(cmd, table[i]) && items[k] == Project(table[i])
    ensures forall i :: 0 <= i < |table| && Selects(cmd, table[i]) ==> Project(table[i]) in items
  {
    if table == [] then []
    else
      var rest := Scan(table[1..], cmd);
      assert forall i :: 1 <= i < |table| ==> table[i] == table[1..][i - 1];
      if Selects(cmd, table[0]) then [Project(table[0])] + rest else rest
  }

  /** Some record of the table is an active user with this exact username. */
  predicate HasActiveUser(table: seq<UserRecord>, username: string)
  {
    exists u :: u in table && u.username == username && u.isActive
  }

  /** The handler's lookup finds something exactly when an active user with that name is stored. */
  lemma ScanFindsActiveUser(table: seq<UserRecord>, username: string)
    ensures Scan(table, ScanCommand(username, true)) != [] <==> HasActiveUser(table, username)
  {
  }

  /** The outcome of the lookup depends on which records are stored, not on their order. */
  lemma ScanIgnoresOrder(t1: seq<UserRecord>, t2: seq<UserRecord>, username: string)
    requires multiset(t1) == multiset(t2)
    ensures (Scan(t1, ScanCommand(username, true)) == []) == (Scan(t2, ScanCommand(username, true)) == [])
  {
    ScanFindsActiveUser(t1, username);
    ScanFindsActiveUser(t2, username);
    forall u | u in t1 ensures u in t2 {
      assert u in multiset(t1);
    }
    forall u | u in t2 ensures u in t1 {
      assert u in multiset(t2);
    }
  }
}
