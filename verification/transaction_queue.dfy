/** The de-duplicating queue of a builder state. */
module TransactionQueues {
  import opened Blocks
  import opened TxnSeqs

  /** The value of a queue after an insertion: a commit already queued changes nothing. */
  function Inserted(queue: seq<Txn>, t: Txn): seq<Txn> {
    if t.commit in Commits(queue) then queue else queue + [t]
  }

  class TransactionQueue {
    /** Accessory index: the commits of `transactions`. */
    var commits: set<TxCommit>
    var transactions: seq<Txn>

    ghost predicate Valid()
      reads this
    {
      commits == Commits(transactions) && Distinct(transactions)
    }

    constructor ()
      ensures Valid() && transactions == []
    {
      commits, transactions := {}, [];
    }

    constructor Clone(other: TransactionQueue)
      requires other.Valid()
      ensures Valid() && transactions == other.transactions
    {
      commits, transactions := other.commits, other.transactions;
    }

    method Prune(pruned: seq<TxCommit>)
      requires Valid()
      modifies this
      ensures Valid()
      ensures transactions == Without(old(transactions), set c | c in pruned)
    {
      for i := 0 to |pruned|
        invariant transactions == old(transactions)
        invariant commits == old(commits) - set c | c in pruned[..i]
      {
        commits := commits - {pruned[i]};
        assert pruned[..i + 1] == pruned[..i] + [pruned[i]];
      }
      assert pruned[..|pruned|] == pruned;
      KeepingIsWithout(transactions, old(commits), set c | c in pruned);
      WithoutCommits(transactions, set c | c in pruned);
      WithoutDistinct(transactions, set c | c in pruned);
      transactions := Keeping(transactions, commits);
    }

    method Insert(t: Txn) returns (inserted: bool)
      requires Valid()
      modifies this
      ensures Valid()
      ensures inserted == (t.commit !in Commits(old(transactions)))
      ensures transactions == Inserted(old(transactions), t)
    {
      if t.commit !in commits {
        AppendDistinct(transactions, t);
        CommitsConcat(transactions, [t]);
        commits := commits + {t.commit};
        transactions := transactions + [t];
        inserted := true;
      } else {
        inserted := false;
      }
    }

    method PopFront() returns (front: Option<Txn>)
      requires Valid()
      modifies this
      ensures Valid()
      ensures old(transactions) == [] ==> front == None && transactions == []
      ensures old(transactions) != [] ==> front == Some(old(transactions)[0])
      ensures old(transactions) != [] ==> transactions == old(transactions)[1..]
    {
      if transactions == [] {
        return None;
      }
      var t := transactions[0];
      PopCommits(transactions);
      transactions := transactions[1..];
      commits := commits - {t.commit};
      front := Some(t);
    }

    /** The source asks the index, not the queue. */
    method IsEmpty() returns (empty: bool)
      requires Valid()
      ensures empty <==> transactions == []
    {
      empty := commits == {};
      if transactions != [] {
        assert transactions[0].commit in commits;
      }
    }
  }

  lemma PopCommits(s: seq<Txn>)
    requires Distinct(s) && s != []
    ensures Distinct(s[1..]) && Commits(s[1..]) == Commits(s) - {s[0].commit}
  {
    assert s == [s[0]] + s[1..];
    CommitsConcat([s[0]], s[1..]);
    forall t | t in s[1..] ensures t.commit != s[0].commit {
      var i :| 0 <= i < |s[1..]| && s[1..][i] == t;
      assert s[i + 1] == t;
    }
  }
}
