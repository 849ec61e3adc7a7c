/** A map keyed by (view, subkey), stored as one non-empty bucket per view. */
module TieredViewMaps {
  import opened Blocks

  type Tiers<S, +V> = map<View, map<S, V>>

  /** No bucket is ever empty, so a view is stored only while it has an entry. */
  predicate WellFormed<S, V>(m: Tiers<S, V>) { forall v :: v in m ==> m[v].Keys != {} }

  // ----- Views in order -----

  lemma {:induction false} LeastView(vs: set<View>) returns (least: View)
    requires vs != {}
    ensures least in vs && forall u :: u in vs ==> least <= u
    decreases |vs|
  {
    least :| least in vs;
    var rest := vs - {least};
    assert vs == rest + {least};
    if rest != {} {
      var other := LeastView(rest);
      if other < least { least := other; }
    }
  }

  lemma MinExists(vs: set<View>)
    requires vs != {}
    ensures exists v :: v in vs && forall u :: u in vs ==> v <= u
  {
    var least := LeastView(vs);
  }

  function MinView(vs: set<View>): (v: View)
    requires vs != {}
    ensures v in vs && forall u :: u in vs ==> v <= u
  {
    MinExists(vs);
    var v :| v in vs && forall u :: u in vs ==> v <= u;
    v
  }

  lemma {:induction false} GreatestView(vs: set<View>) returns (greatest: View)
    requires vs != {}
    ensures greatest in vs && forall u :: u in vs ==> u <= greatest
    decreases |vs|
  {
    greatest :| greatest in vs;
    var rest := vs - {greatest};
    assert vs == rest + {greatest};
    if rest != {} {
      var other := GreatestView(rest);
      if other > greatest { greatest := other; }
    }
  }

  lemma MaxExists(vs: set<View>)
    requires vs != {}
    ensures exists v :: v in vs && forall u :: u in vs ==> u <= v
  {
    var greatest := GreatestView(vs);
  }

  function MaxView(vs: set<View>): (v: View)
    requires vs != {}
    ensures v in vs && forall u :: u in vs ==> u <= v
  {
    MaxExists(vs);
    var v :| v in vs && forall u :: u in vs ==> u <= v;
    v
  }

  /** Each view of the set exactly once, in ascending order. */
  function Sorted(vs: set<View>): (views: seq<View>)
    ensures forall v :: v in vs <==> v in views
    ensures forall i :: 0 <= i < |views| ==> views[i] in vs
    ensures forall i, j :: 0 <= i < j < |views| ==> views[i] < views[j]
    decreases |vs|
  {
    if vs == {} then []
    else
      var v := MinView(vs);
      [v] + Sorted(vs - {v})
  }

  // ----- The operations on values -----

  function Get<S, V>(m: Tiers<S, V>, view: View, sub: S): Option<V> {
    if view in m && sub in m[view] then Some(m[view][sub]) else None
  }

  function Bucket<S, V>(m: Tiers<S, V>, view: View): map<S, V> {
    if view in m then m[view] else map[]
  }

  function Inserted<S, V>(m: Tiers<S, V>, view: View, sub: S, value: V): Tiers<S, V> {
    m[view := Bucket(m, view)[sub := value]]
  }

  function AtLeast<S, V>(m: Tiers<S, V>, cutoff: View): Tiers<S, V> {
    map v | v in m && v >= cutoff :: m[v]
  }

  function Below<S, V>(m: Tiers<S, V>, cutoff: View): Tiers<S, V> {
    map v | v in m && v < cutoff :: m[v]
  }

  function LowestView<S, V>(m: Tiers<S, V>): Option<View> {
    if m.Keys == {} then None else Some(MinView(m.Keys))
  }

  function HighestView<S, V>(m: Tiers<S, V>): Option<View> {
    if m.Keys == {} then None else Some(MaxView(m.Keys))
  }

  /** The buckets of the views in [lo, hi), in iteration order. */
  function Range<S, V>(m: Tiers<S, V>, lo: View, hi: View): seq<map<S, V>> {
    var views := Sorted(set v | v in m.Keys && lo <= v < hi);
    seq(|views|, i requires 0 <= i < |views| => Bucket(m, views[i]))
  }

  /** The sizes of the buckets, added up in ascending order of their views. */
  function LenOver<S, V>(m: Tiers<S, V>, views: set<View>): nat
    decreases |views|
  {
    if views == {} then 0
    else
      var v := MinView(views);
      |Bucket(m, v).Keys| + LenOver(m, views - {v})
  }

  function Len<S, V>(m: Tiers<S, V>): nat { LenOver(m, m.Keys) }

  // ----- The flat map it stands for -----

  ghost function Pairs<S>(v: View, subs: set<S>): set<(View, S)> { set s | s in subs :: (v, s) }

  ghost function KeysOver<S, V>(m: Tiers<S, V>, views: set<View>): set<(View, S)>
    decreases |views|
  {
    if views == {} then {}
    else
      var v := MinView(views);
      Pairs(v, Bucket(m, v).Keys) + KeysOver(m, views - {v})
  }

  lemma {:induction false} KeysOverMember<S, V>(m: Tiers<S, V>, views: set<View>, k: (View, S))
    ensures k in KeysOver(m, views) <==> k.0 in views && k.1 in Bucket(m, k.0)
    decreases |views|
  {
    if views != {} {
      KeysOverMember(m, views - {MinView(views)}, k);
    }
  }

  /** The keys of the flat map. */
  ghost function Keys<S, V>(m: Tiers<S, V>): set<(View, S)> { KeysOver(m, m.Keys) }

  /** The flat map is determined by its keys and `Get`. */
  lemma GetIsFlat<S, V>(m: Tiers<S, V>, view: View, sub: S)
    ensures (view, sub) in Keys(m) <==> Get(m, view, sub).Some?
  {
    KeysOverMember(m, m.Keys, (view, sub));
  }

  lemma InsertIsFlat<S, V>(m: Tiers<S, V>, view: View, sub: S, value: V, v: View, s: S)
    ensures Get(Inserted(m, view, sub, value), v, s) == if (v, s) == (view, sub) then Some(value) else Get(m, v, s)
  {
  }

  lemma InsertMember<S, V>(m: Tiers<S, V>, view: View, sub: S, value: V, k: (View, S))
    ensures k in Keys(Inserted(m, view, sub, value)) <==> k == (view, sub) || k in Keys(m)
  {
    GetIsFlat(m, k.0, k.1);
    GetIsFlat(Inserted(m, view, sub, value), k.0, k.1);
    InsertIsFlat(m, view, sub, value, k.0, k.1);
  }

  lemma InsertKeys<S, V>(m: Tiers<S, V>, view: View, sub: S, value: V)
    ensures Keys(Inserted(m, view, sub, value)) == Keys(m) + {(view, sub)}
  {
    var after, before := Keys(Inserted(m, view, sub, value)), Keys(m);
    forall k | k in after ensures k in before + {(view, sub)} {
      InsertMember(m, view, sub, value, k);
    }
    forall k | k in before + {(view, sub)} ensures k in after {
      InsertMember(m, view, sub, value, k);
    }
  }

  /** The extreme views are those of the flat keys. */
  lemma ExtremesAreFlat<S, V>(m: Tiers<S, V>)
    requires WellFormed(m)
    ensures LowestView(m).Some? == HighestView(m).Some? == (Keys(m) != {})
    ensures forall k :: k in Keys(m) ==> LowestView(m).value <= k.0 <= HighestView(m).value
    ensures LowestView(m).Some? ==> exists k :: k in Keys(m) && k.0 == LowestView(m).value
    ensures HighestView(m).Some? ==> exists k :: k in Keys(m) && k.0 == HighestView(m).value
  {
    forall k | k in Keys(m) ensures k.0 in m.Keys { GetIsFlat(m, k.0, k.1); }
    if m.Keys != {} {
      var lo, hi := MinView(m.Keys), MaxView(m.Keys);
      var s :| s in m[lo];
      GetIsFlat(m, lo, s);
      var s' :| s' in m[hi];
      GetIsFlat(m, hi, s');
    }
  }

  /** `range` visits the stored views of [lo, hi) once each, ascending, with their buckets. */
  lemma RangeVisitsOnce<S, V>(m: Tiers<S, V>, lo: View, hi: View) returns (views: seq<View>)
    ensures |views| == |Range(m, lo, hi)|
    ensures forall i :: 0 <= i < |views| ==> views[i] in m && Range(m, lo, hi)[i] == m[views[i]]
    ensures forall i, j :: 0 <= i < j < |views| ==> views[i] < views[j]
    ensures forall v :: v in views <==> v in m && lo <= v < hi
  {
    views := Sorted(set v | v in m.Keys && lo <= v < hi);
  }

  /** The first bucket of a range is that of the least stored view in it. */
  lemma RangeHead<S, V>(m: Tiers<S, V>, lo: View, hi: View)
    ensures var vs := set v | v in m.Keys && lo <= v < hi;
      if vs == {} then Range(m, lo, hi) == [] else Range(m, lo, hi) != [] && Range(m, lo, hi)[0] == m[MinView(vs)]
  {
  }

  // ----- Counting -----

  lemma UnionSize<T>(a: set<T>, b: set<T>)
    requires a !! b
    ensures |a + b| == |a| + |b|
  {
  }

  lemma {:induction false} PairsSize<S>(v: View, subs: set<S>)
    ensures |Pairs(v, subs)| == |subs|
    decreases |subs|
  {
    if subs == {} {
      assert Pairs(v, subs) == {};
    } else {
      var x :| x in subs;
      PairsSize(v, subs - {x});
      assert Pairs(v, subs) == Pairs(v, subs - {x}) + {(v, x)};
    }
  }

  lemma {:induction false} LenOverCounts<S, V>(m: Tiers<S, V>, views: set<View>)
    ensures LenOver(m, views) == |KeysOver(m, views)|
    decreases |views|
  {
    if views != {} {
      var v := MinView(views);
      var subs := Bucket(m, v).Keys;
      LenOverCounts(m, views - {v});
      PairsSize(v, subs);
      forall k | k in Pairs(v, subs) ensures k !in KeysOver(m, views - {v}) {
        KeysOverMember(m, views - {v}, k);
      }
      UnionSize(Pairs(v, subs), KeysOver(m, views - {v}));
    }
  }

  /** `len` counts the entries of the flat map. */
  lemma LenIsFlat<S, V>(m: Tiers<S, V>)
    ensures Len(m) == |Keys(m)|
  {
    LenOverCounts(m, m.Keys);
  }

  lemma LenInserted<S, V>(m: Tiers<S, V>, view: View, sub: S, value: V)
    ensures Len(Inserted(m, view, sub, value)) == Len(m) + if Get(m, view, sub).Some? then 0 else 1
  {
    InsertKeys(m, view, sub, value);
    GetIsFlat(m, view, sub);
    LenIsFlat(m);
    LenIsFlat(Inserted(m, view, sub, value));
  }

  /** Pruning splits the flat map at the cutoff ... */
  lemma PruneSplits<S, V>(m: Tiers<S, V>, cutoff: View, v: View, s: S)
    ensures Get(AtLeast(m, cutoff), v, s) == if v >= cutoff then Get(m, v, s) else None
    ensures Get(Below(m, cutoff), v, s) == if v < cutoff then Get(m, v, s) else None
  {
  }

  lemma PruneMember<S, V>(m: Tiers<S, V>, cutoff: View, k: (View, S))
    ensures k in Keys(AtLeast(m, cutoff)) <==> k in Keys(m) && k.0 >= cutoff
    ensures k in Keys(Below(m, cutoff)) <==> k in Keys(m) && k.0 < cutoff
  {
    PruneSplits(m, cutoff, k.0, k.1);
    GetIsFlat(m, k.0, k.1);
    GetIsFlat(AtLeast(m, cutoff), k.0, k.1);
    GetIsFlat(Below(m, cutoff), k.0, k.1);
  }

  lemma SplitSize<S>(all: set<(View, S)>, high: set<(View, S)>, low: set<(View, S)>, cutoff: View)
    requires forall k :: k in high <==> k in all && k.0 >= cutoff
    requires forall k :: k in low <==> k in all && k.0 < cutoff
    ensures |all| == |high| + |low|
  {
    assert all == high + low;
    UnionSize(high, low);
  }

  /** ... and conserves the number of entries. */
  lemma PruneLen<S, V>(m: Tiers<S, V>, cutoff: View)
    ensures Len(m) == Len(AtLeast(m, cutoff)) + Len(Below(m, cutoff))
  {
    LenIsFlat(m);
    LenIsFlat(AtLeast(m, cutoff));
    LenIsFlat(Below(m, cutoff));
    forall k ensures k in Keys(AtLeast(m, cutoff)) <==> k in Keys(m) && k.0 >= cutoff
             ensures k in Keys(Below(m, cutoff)) <==> k in Keys(m) && k.0 < cutoff
    {
      PruneMember(m, cutoff, k);
    }
    SplitSize(Keys(m), Keys(AtLeast(m, cutoff)), Keys(Below(m, cutoff)), cutoff);
  }

  // ----- The map object -----

  class TieredViewMap<S(==), V> {
    var tiers: Tiers<S, V>

    ghost predicate Valid()
      reads this
    {
      WellFormed(tiers)
    }

    constructor ()
      ensures Valid() && tiers == map[]
    {
      tiers := map[];
    }

    constructor FromTiers(tiers: Tiers<S, V>)
      ensures this.tiers == tiers
    {
      this.tiers := tiers;
    }

    /** The first entry of a view opens a bucket, later ones join it. */
    method Insert(view: View, sub: S, value: V)
      requires Valid()
      modifies this
      ensures Valid()
      ensures tiers == Inserted(old(tiers), view, sub, value)
    {
      if view !in tiers {
        tiers := tiers[view := map[sub := value]];
      } else {
        tiers := tiers[view := tiers[view][sub := value]];
      }
      assert sub in tiers[view].Keys;
    }

    /** Keeps the views from the cutoff on and hands back the others. */
    method Prune(cutoff: View) returns (low: TieredViewMap<S, V>)
      requires Valid()
      modifies this
      ensures Valid() && low.Valid() && fresh(low)
      ensures tiers == AtLeast(old(tiers), cutoff) && low.tiers == Below(old(tiers), cutoff)
    {
      low := new TieredViewMap.FromTiers(Below(tiers, cutoff));
      tiers := AtLeast(tiers, cutoff);
    }
  }
}
