/**
 * The database transaction a DbContext hands out, the context's "current
 * transaction" slot, and RepositoryTransaction, the handle that commits or
 * disposes the wrapped transaction only when it is the top-level owner.
 */
module Transactions {

  /** IDbContextTransaction: counts the commits and disposals it receives. */
  class Transaction {
    /** GetHashCode() of the transaction object. */
    const hash: int
    var commits: nat
    var disposals: nat

    constructor (hash: int)
      ensures this.hash == hash && commits == 0 && disposals == 0
    {
      this.hash := hash;
      commits, disposals := 0, 0;
    }

    /** Neither committed nor disposed yet. */
    predicate Open()
      reads this
    {
      commits == 0 && disposals == 0
    }

    method Commit()
      modifies this
      ensures commits == old(commits) + 1 && disposals == old(disposals)
    {
      commits := commits + 1;
    }

    method Dispose()
      modifies this
      ensures disposals == old(disposals) + 1 && commits == old(commits)
    {
      disposals := disposals + 1;
    }
  }

  /** DbContext.Database: the transaction most recently begun. */
  class Database {
    var slot: Transaction?
    /** How many transactions were begun; the next one's hash. */
    var begun: nat

    constructor ()
      ensures slot == null && begun == 0
    {
      slot, begun := null, 0;
    }

    /** CurrentTransaction: the last transaction begun, while it is still open. */
    function Current(): (t: Transaction?)
      reads this, slot
      ensures t != null ==> t == slot && t.Open()
      ensures t == null ==> slot == null || !slot.Open()
    {
      if slot != null && slot.Open() then slot else null
    }

    /** BeginTransaction(): starts a new transaction and makes it current. */
    method BeginTransaction() returns (t: Transaction)
      modifies this
      ensures fresh(t) && t.Open() && t.hash == old(begun)
      ensures slot == t && begun == old(begun) + 1
      ensures Current() == t
    {
      t := new Transaction(begun);
      slot := t;
      begun := begun + 1;
    }
  }

  /** How a handler call leaves the database's transactions. If no transaction was
      current, the call began one, which is committed exactly when the call
      succeeded and otherwise stays current; if one was current, the call
      only joined it and it stays current, uncommitted. */
  twostate predicate Settled(db: Database, succeeded: bool)
    reads db, db.slot
  {
    if old(db.Current()) == null then
      db.slot != null && fresh(db.slot) && db.begun == old(db.begun) + 1 &&
      db.slot.disposals == 0 && db.slot.commits == (if succeeded then 1 else 0)
    else
      db.slot == old(db.slot) && db.begun == old(db.begun) && db.Current() == old(db.Current())
  }

  /** Wraps a transaction; only a top-level handle may finish it. */
  class RepositoryTransaction {
    const transaction: Transaction
    const isTopLevel: bool

    constructor (transaction: Transaction, isTopLevel: bool)
      ensures this.transaction == transaction && this.isTopLevel == isTopLevel
    {
      this.transaction := transaction;
      this.isTopLevel := isTopLevel;
    }

    /** Id: the hash of the wrapped transaction. */
    function Id(): int
    {
      transaction.hash
    }

    /** Commits the wrapped transaction and answers true when top-level;
        otherwise does nothing and answers false. */
    method Commit() returns (committed: bool)
      modifies transaction
      ensures committed == isTopLevel
      ensures transaction.commits == old(transaction.commits) + (if isTopLevel then 1 else 0)
      ensures transaction.disposals == old(transaction.disposals)
    {
      if isTopLevel {
        transaction.Commit();
        return true;
      }
      return false;
    }

    /** Disposes the wrapped transaction only when top-level. */
    method Dispose()
      modifies transaction
      ensures transaction.disposals == old(transaction.disposals) + (if isTopLevel then 1 else 0)
      ensures transaction.commits == old(transaction.commits)
    {
      if isTopLevel {
        transaction.Dispose();
      }
    }
  }

  /** Handles wrapping the same transaction report the same Id. */
  lemma SameTransactionSameId(a: RepositoryTransaction, b: RepositoryTransaction)
    requires a.transaction == b.transaction
    ensures a.Id() == b.Id()
  {
  }
}
