/** The two MySQL dialects of the SQL template layer and the row-locking
    clause each of them actually emits for a requested one. */
module SqlDialect {
  import opened Wrappers

  /** The row-locking clauses a query can ask for. */
  datatype RowLockingClause =
    | SelectForShare
    | SelectForShareNoWait
    | SelectForShareSkipLocked
    | SelectForUpdate
    | SelectForUpdateNoWait
    | SelectForUpdateSkipLocked

  predicate IsShareLock(c: RowLockingClause) {
    c.SelectForShare? || c.SelectForShareNoWait? || c.SelectForShareSkipLocked?
  }

  /** How a dialect writes argument placeholders: `?` for every argument, as
      SQL-92 does. */
  datatype ArgPlaceholderFormat = ArgFmtSQL92

  /** A dialect: its name, the clause it emits for each requested row-locking
      clause, and its placeholder format. */
  datatype Dialect = Dialect(
    name: string,
    rowLockingClauseMap: map<RowLockingClause, RowLockingClause>,
    argPlaceholder: ArgPlaceholderFormat)

  /** The map that emits every clause as requested. */
  const RowLockingClauseAll: map<RowLockingClause, RowLockingClause> := map[
    SelectForShare := SelectForShare,
    SelectForShareNoWait := SelectForShareNoWait,
    SelectForShareSkipLocked := SelectForShareSkipLocked,
    SelectForUpdate := SelectForUpdate,
    SelectForUpdateNoWait := SelectForUpdateNoWait,
    SelectForUpdateSkipLocked := SelectForUpdateSkipLocked]

  /** MySQL 8. */
  const MySQL: Dialect := Dialect("mysql8", RowLockingClauseAll, ArgFmtSQL92)

  /** MySQL 5.7, which has neither NOWAIT nor SKIP LOCKED: those variants fall
      back to the plain clause. */
  const MySQL5: Dialect := Dialect(
    "mysql5",
    map[
      SelectForShare := SelectForShare,
      SelectForShareNoWait := SelectForShare,
      SelectForShareSkipLocked := SelectForShare,
      SelectForUpdate := SelectForUpdate,
      SelectForUpdateNoWait := SelectForUpdate,
      SelectForUpdateSkipLocked := SelectForUpdate],
    ArgFmtSQL92)

  /** The clause dialect `d` emits for the requested clause `c`, or None when
      the dialect has no entry for it. */
  function LockingClause(d: Dialect, c: RowLockingClause): Option<RowLockingClause> {
    if c in d.rowLockingClauseMap then Some(d.rowLockingClauseMap[c]) else None
  }

  /** Both MySQL dialects have an entry for every clause. */
  lemma MySQLDialectsTotal(c: RowLockingClause)
    ensures LockingClause(MySQL, c).Some?
    ensures LockingClause(MySQL5, c).Some?
  {
  }

  /** MySQL 8 emits every clause as requested. */
  lemma MySQLKeepsClause(c: RowLockingClause)
    ensures LockingClause(MySQL, c) == Some(c)
  {
  }

  /** MySQL 5 turns every share-lock variant into the plain FOR SHARE clause. */
  lemma MySQL5DowngradesShare(c: RowLockingClause)
    requires IsShareLock(c)
    ensures LockingClause(MySQL5, c) == Some(SelectForShare)
  {
  }

  /** MySQL 5 turns every update-lock variant into the plain FOR UPDATE clause. */
  lemma MySQL5DowngradesUpdate(c: RowLockingClause)
    requires !IsShareLock(c)
    ensures LockingClause(MySQL5, c) == Some(SelectForUpdate)
  {
  }

  /** The clauses MySQL 5 emits are fixed points of its map, so applying the
      map twice is applying it once. */
  lemma MySQL5Idempotent(c: RowLockingClause)
    ensures var r := LockingClause(MySQL5, c).value; LockingClause(MySQL5, r) == Some(r)
  {
  }

  /** MySQL 5 never turns a share lock into an update lock or back. */
  lemma MySQL5KeepsLockStrength(c: RowLockingClause)
    ensures IsShareLock(LockingClause(MySQL5, c).value) == IsShareLock(c)
  {
  }

  /** Both dialects use SQL-92 placeholders and have distinct names. */
  lemma MySQLDialectsNamesAndPlaceholders()
    ensures MySQL.argPlaceholder == ArgFmtSQL92 && MySQL5.argPlaceholder == ArgFmtSQL92
    ensures MySQL.name == "mysql8" && MySQL5.name == "mysql5"
    ensures MySQL.name != MySQL5.name
  {
  }
}
