/** Filtering, de-duplication and order of transaction sequences. */
module TxnSeqs {
  import opened Blocks

  function Commits(s: seq<Txn>): set<TxCommit> { set t | t in s :: t.commit }

  ghost predicate Distinct(s: seq<Txn>) {
    forall i, j :: 0 <= i < j < |s| ==> s[i].commit != s[j].commit
  }

  function Init(s: seq<Txn>): seq<Txn>
    requires s != []
  {
    s[..|s| - 1]
  }

  function Last(s: seq<Txn>): Txn
    requires s != []
  {
    s[|s| - 1]
  }

  /** The transactions of `s` whose commit is in `keep`, in order. */
  function Keeping(s: seq<Txn>, keep: set<TxCommit>): seq<Txn> {
    if s == [] then []
    else if Last(s).commit in keep then Keeping(Init(s), keep) + [Last(s)]
    else Keeping(Init(s), keep)
  }

  /** The transactions of `s` whose commit is not in `drop`, in order. */
  function Without(s: seq<Txn>, drop: set<TxCommit>): seq<Txn> {
    if s == [] then []
    else if Last(s).commit in drop then Without(Init(s), drop)
    else Without(Init(s), drop) + [Last(s)]
  }

  /** The first occurrence of every commit in `s`, in order. */
  function FirstOccurrences(s: seq<Txn>): seq<Txn> {
    if s == [] then []
    else if Last(s).commit in Commits(Init(s)) then FirstOccurrences(Init(s))
    else FirstOccurrences(Init(s)) + [Last(s)]
  }

  /** Where a commit first appears in `s`; the length of `s` if it does not. */
  function FirstIndex(s: seq<Txn>, c: TxCommit): (i: nat)
    ensures i <= |s|
    ensures i < |s| ==> s[i].commit == c
    ensures forall j :: 0 <= j < i ==> s[j].commit != c
    ensures i < |s| <==> c in Commits(s)
  {
    if s == [] then 0
    else
      var i := FirstIndex(Init(s), c);
      if i < |s| - 1 || Last(s).commit == c then i else |s|
  }

  /** `a` arises from `b` by deleting elements. */
  ghost predicate Subsequence(a: seq<Txn>, b: seq<Txn>) {
    || a == []
    || (b != [] && ((Last(a) == Last(b) && Subsequence(Init(a), Init(b))) || Subsequence(a, Init(b))))
  }

  lemma InitLast(s: seq<Txn>)
    requires s != []
    ensures s == Init(s) + [Last(s)]
    ensures Commits(s) == Commits(Init(s)) + {Last(s).commit}
  {
    assert s == Init(s) + [Last(s)];
    assert Last(s) in s;
    forall t | t in Init(s) ensures t in s { }
  }

  lemma CommitsConcat(a: seq<Txn>, b: seq<Txn>)
    ensures Commits(a + b) == Commits(a) + Commits(b)
  {
    forall c | c in Commits(a) + Commits(b) ensures c in Commits(a + b) {
      var t :| t in a + b && t.commit == c;
    }
  }

  // ----- Filters -----

  lemma {:induction false} WithoutConcat(a: seq<Txn>, b: seq<Txn>, drop: set<TxCommit>)
    ensures Without(a + b, drop) == Without(a, drop) + Without(b, drop)
  {
    if b == [] {
      assert a + b == a;
    } else {
      assert Init(a + b) == a + Init(b);
      WithoutConcat(a, Init(b), drop);
    }
  }

  lemma WithoutSingle(t: Txn, drop: set<TxCommit>)
    ensures Without([t], drop) == if t.commit in drop then [] else [t]
  {
    assert Init([t]) == [];
  }

  lemma {:induction false} WithoutCommits(s: seq<Txn>, drop: set<TxCommit>)
    ensures Commits(Without(s, drop)) == Commits(s) - drop
  {
    if s != [] {
      WithoutCommits(Init(s), drop);
      InitLast(s);
      CommitsConcat(Without(Init(s), drop), [Last(s)]);
    }
  }

  lemma {:induction false} WithoutWithout(s: seq<Txn>, a: set<TxCommit>, b: set<TxCommit>)
    ensures Without(Without(s, a), b) == Without(s, a + b)
  {
    if s != [] {
      WithoutWithout(Init(s), a, b);
      if Last(s).commit !in a {
        WithoutConcat(Without(Init(s), a), [Last(s)], b);
        WithoutSingle(Last(s), b);
      }
    }
  }

  lemma {:induction false} WithoutNone(s: seq<Txn>, drop: set<TxCommit>)
    requires Commits(s) !! drop
    ensures Without(s, drop) == s
  {
    if s != [] {
      InitLast(s);
      WithoutNone(Init(s), drop);
    }
  }

  lemma {:induction false} WithoutAll(s: seq<Txn>, drop: set<TxCommit>)
    requires Commits(s) <= drop
    ensures Without(s, drop) == []
  {
    if s != [] {
      InitLast(s);
      WithoutAll(Init(s), drop);
    }
  }

  lemma {:induction false} KeepingIsWithout(s: seq<Txn>, cs: set<TxCommit>, drop: set<TxCommit>)
    requires Commits(s) <= cs
    ensures Keeping(s, cs - drop) == Without(s, drop)
  {
    if s != [] {
      InitLast(s);
      KeepingIsWithout(Init(s), cs, drop);
    }
  }

  lemma {:induction false} WithoutDistinct(s: seq<Txn>, drop: set<TxCommit>)
    requires Distinct(s)
    ensures Distinct(Without(s, drop))
  {
    if s != [] {
      InitLast(s);
      AppendDistinct(Init(s), Last(s));
      WithoutDistinct(Init(s), drop);
      WithoutCommits(Init(s), drop);
      AppendDistinct(Without(Init(s), drop), Last(s));
    }
  }

  lemma AppendDistinct(s: seq<Txn>, t: Txn)
    requires Distinct(s)
    ensures Distinct(s + [t]) <==> t.commit !in Commits(s)
  {
    if u :| u in s && u.commit == t.commit {
      var i :| 0 <= i < |s| && s[i] == u;
      assert (s + [t])[i].commit == (s + [t])[|s|].commit;
    }
  }

  // ----- First occurrences -----

  lemma {:induction false} FirstOccurrencesCommits(s: seq<Txn>)
    ensures Commits(FirstOccurrences(s)) == Commits(s)
  {
    if s != [] {
      FirstOccurrencesCommits(Init(s));
      InitLast(s);
      CommitsConcat(FirstOccurrences(Init(s)), [Last(s)]);
    }
  }

  /** The result lists each commit once, at its first index, in increasing order of it. */
  lemma {:induction false} FirstOccurrencesOrdered(s: seq<Txn>)
    ensures var f := FirstOccurrences(s);
      && (forall k :: 0 <= k < |f| ==> FirstIndex(s, f[k].commit) < |s| && f[k] == s[FirstIndex(s, f[k].commit)])
      && (forall j, k :: 0 <= j < k < |f| ==> FirstIndex(s, f[j].commit) < FirstIndex(s, f[k].commit))
  {
    if s != [] {
      FirstOccurrencesOrdered(Init(s));
      InitLast(s);
      FirstOccurrencesCommits(Init(s));
      var f := FirstOccurrences(Init(s));
      forall k | 0 <= k < |f| ensures FirstIndex(s, f[k].commit) == FirstIndex(Init(s), f[k].commit) { }
    }
  }

  // ----- Subsequences -----

  lemma {:induction false} SubsequenceRefl(s: seq<Txn>)
    ensures Subsequence(s, s)
  {
    if s != [] {
      SubsequenceRefl(Init(s));
    }
  }

  lemma {:induction false} SubsequenceTrans(a: seq<Txn>, b: seq<Txn>, c: seq<Txn>)
    requires Subsequence(a, b) && Subsequence(b, c)
    ensures Subsequence(a, c)
    decreases |a| + |b| + |c|
  {
    if a == [] {
    } else if Last(b) == Last(c) && Subsequence(Init(b), Init(c)) {
      if Last(a) == Last(b) && Subsequence(Init(a), Init(b)) {
        SubsequenceTrans(Init(a), Init(b), Init(c));
      } else {
        SubsequenceTrans(a, Init(b), Init(c));
      }
    } else {
      SubsequenceTrans(a, b, Init(c));
    }
  }

  lemma SubsequenceAppend(a: seq<Txn>, b: seq<Txn>, t: Txn)
    requires Subsequence(a, b)
    ensures Subsequence(a, b + [t]) && Subsequence(a + [t], b + [t])
  {
    assert Init(b + [t]) == b && Last(b + [t]) == t;
    assert Init(a + [t]) == a && Last(a + [t]) == t;
  }

  lemma {:induction false} WithoutSubsequence(s: seq<Txn>, drop: set<TxCommit>)
    ensures Subsequence(Without(s, drop), s)
  {
    if s != [] {
      WithoutSubsequence(Init(s), drop);
      InitLast(s);
      SubsequenceAppend(Without(Init(s), drop), Init(s), Last(s));
    }
  }

  lemma {:induction false} SuffixSubsequence(s: seq<Txn>, k: nat)
    requires k <= |s|
    ensures Subsequence(s[k..], s)
  {
    if k < |s| {
      SuffixSubsequence(Init(s), k);
      assert Init(s[k..]) == Init(s)[k..];
    }
  }

  /** Ascending positions in `b` at which the elements of `a` stand. */
  ghost predicate Embeds(a: seq<Txn>, b: seq<Txn>, at: seq<nat>) {
    && |at| == |a|
    && (forall i :: 0 <= i < |at| ==> at[i] < |b| && b[at[i]] == a[i])
    && (forall i, j :: 0 <= i < j < |at| ==> at[i] < at[j])
  }

  lemma {:induction false} SubsequenceEmbeds(a: seq<Txn>, b: seq<Txn>) returns (at: seq<nat>)
    requires Subsequence(a, b)
    ensures Embeds(a, b, at)
    decreases |b|
  {
    if a == [] {
      at := [];
    } else if Last(a) == Last(b) && Subsequence(Init(a), Init(b)) {
      at := SubsequenceEmbeds(Init(a), Init(b));
      at := at + [|b| - 1];
    } else {
      at := SubsequenceEmbeds(a, Init(b));
    }
  }

  lemma {:induction false} EmbeddedIsSubsequence(a: seq<Txn>, b: seq<Txn>, at: seq<nat>)
    requires Embeds(a, b, at)
    ensures Subsequence(a, b)
    decreases |b|
  {
    if a != [] {
      var k := |at| - 1;
      if at[k] == |b| - 1 {
        EmbeddedIsSubsequence(Init(a), Init(b), at[..k]);
      } else {
        EmbeddedIsSubsequence(a, Init(b), at);
      }
    }
  }
}
