/**
 * The weighted collection the chain stores for every word: an ordered
 * sequence of (value, weight) elements with at most one element per value.
 * Supports lookup by value, appending, replacing a weight, and the
 * cumulative-weight draw.
 */
module Weighted {
  import opened Wrappers

  /** A successor word and how often it has been seen. */
  datatype Element = Element(value: string, weight: nat)

  /** Insertion order is kept, so a draw is reproducible for a given r. */
  type Collection = seq<Element>

  /** The values held by a collection. */
  function Values(c: Collection): set<string> {
    set k | 0 <= k < |c| :: c[k].value
  }

  /** At most one element per value: every caller adds only absent values (see Add). */
  predicate Distinct(c: Collection) {
    forall i, j :: 0 <= i < j < |c| ==> c[i].value != c[j].value
  }

  /** Every weight is at least 1, so every element can be drawn. */
  predicate Positive(c: Collection) {
    forall k :: 0 <= k < |c| ==> c[k].weight > 0
  }

  /** The sum of all weights. */
  function Total(c: Collection): nat {
    if c == [] then 0 else c[0].weight + Total(c[1..])
  }

  /** Lookup by value: the first element holding `v`, if any. */
  function Get(c: Collection, v: string): (r: Option<Element>)
    ensures r.Some? ==> r.value in c && r.value.value == v
    ensures r.None? <==> v !in Values(c)
  {
    if c == [] then None
    else if c[0].value == v then Some(c[0])
    else Get(c[1..], v)
  }

  /** In a duplicate-free collection the element holding a value is the one `Get` finds. */
  lemma GetUnique(c: Collection, k: nat)
    requires Distinct(c) && k < |c|
    ensures Get(c, c[k].value) == Some(c[k])
  {
    var r := Get(c, c[k].value);
    assert c[k].value in Values(c);
    var j :| 0 <= j < |c| && c[j] == r.value;
    assert j == k;
  }

  /**
   * add: appends a new element. Every call in Markov.java adds a value the
   * collection does not hold, which the precondition states; what the
   * collection would do with a duplicate is outside this model.
   */
  function Add(c: Collection, e: Element): (r: Collection)
    requires e.value !in Values(c)
    ensures Values(r) == Values(c) + {e.value}
    ensures Distinct(c) ==> Distinct(r) && Get(r, e.value) == Some(e)
    ensures Distinct(c) ==> forall u :: u != e.value ==> Get(r, u) == Get(c, u)
    ensures Positive(c) && e.weight > 0 ==> Positive(r)
  {
    AddLookup(c, e);
    c + [e]
  }

  lemma AddLookup(c: Collection, e: Element)
    requires e.value !in Values(c)
    ensures Values(c + [e]) == Values(c) + {e.value}
    ensures Distinct(c) ==> Distinct(c + [e]) && Get(c + [e], e.value) == Some(e)
    ensures Distinct(c) ==> forall u :: u != e.value ==> Get(c + [e], u) == Get(c, u)
  {
    var r := c + [e];
    assert Values(r) == Values(c) + {e.value} by {
      assert forall k :: 0 <= k < |c| ==> r[k] == c[k];
      assert r[|c|] == e;
    }
    if Distinct(c) {
      assert Distinct(r);
      GetUnique(r, |c|);
      forall u | u != e.value
        ensures Get(r, u) == Get(c, u)
      {
        if u in Values(c) {
          var k :| 0 <= k < |c| && c[k].value == u;
          GetUnique(c, k);
          GetUnique(r, k);
        }
      }
    }
  }

  /** update: the element holding `v` gets weight `w`; nothing else changes. */
  function Update(c: Collection, v: string, w: nat): (r: Collection)
    requires v in Values(c)
    ensures Values(r) == Values(c)
    ensures Distinct(c) ==> Distinct(r) && Get(r, v) == Some(Element(v, w))
    ensures Distinct(c) ==> forall u :: u != v ==> Get(r, u) == Get(c, u)
    ensures Positive(c) && w > 0 ==> Positive(r)
  {
    var r := Replaced(c, v, w);
    UpdateLookup(c, v, w);
    r
  }

  /** `c` with the weight of every element holding `v` set to `w`. */
  function Replaced(c: Collection, v: string, w: nat): (r: Collection)
    ensures |r| == |c|
    ensures forall k :: 0 <= k < |c| ==> r[k] == if c[k].value == v then Element(v, w) else c[k]
  {
    seq(|c|, k requires 0 <= k < |c| => if c[k].value == v then Element(v, w) else c[k])
  }

  lemma UpdateLookup(c: Collection, v: string, w: nat)
    requires v in Values(c)
    ensures Values(Replaced(c, v, w)) == Values(c)
    ensures Distinct(c) ==> Distinct(Replaced(c, v, w)) && Get(Replaced(c, v, w), v) == Some(Element(v, w))
    ensures Distinct(c) ==> forall u :: u != v ==> Get(Replaced(c, v, w), u) == Get(c, u)
  {
    var r := Replaced(c, v, w);
    assert Values(r) == Values(c) by {
      assert forall k :: 0 <= k < |c| ==> r[k].value == c[k].value;
    }
    if Distinct(c) {
      var j :| 0 <= j < |c| && c[j].value == v;
      GetUnique(r, j);
      forall u | u != v
        ensures Get(r, u) == Get(c, u)
      {
        if u in Values(c) {
          var k :| 0 <= k < |c| && c[k].value == u;
          GetUnique(c, k);
          GetUnique(r, k);
        }
      }
    }
  }

  /** The weight recorded for `v`, 0 when `v` is absent. */
  function WeightOf(c: Collection, v: string): nat {
    match Get(c, v)
    case Some(e) => e.weight
    case None => 0
  }

  /**
   * The collection half of updateWordFrequency: the weight of `v` rises by
   * exactly one, or `v` is appended with weight 1 when absent; every other
   * element stays as it was.
   */
  function Increment(c: Collection, v: string): (r: Collection)
    ensures Values(r) == Values(c) + {v}
    ensures Distinct(c) ==> Distinct(r)
    ensures Distinct(c) ==> Get(r, v) == Some(Element(v, WeightOf(c, v) + 1))
    ensures Distinct(c) ==> forall u :: u != v ==> Get(r, u) == Get(c, u)
    ensures Positive(c) ==> Positive(r)
  {
    match Get(c, v)
    case Some(e) => Update(c, v, e.weight + 1)
    case None => Add(c, Element(v, 1))
  }

  /** The element the cumulative walk stops at: the first whose running weight exceeds `r`. */
  function Pick(c: Collection, r: nat): (e: Element)
    requires r < Total(c)
    ensures e in c && e.weight > 0
  {
    if r < c[0].weight then c[0] else Pick(c[1..], r - c[0].weight)
  }

  /**
   * getRandom: `r` stands for the uniform random number, reduced to the
   * range [0, Total(c)); the draw is empty only when there is nothing to draw.
   */
  function Draw(c: Collection, r: nat): (d: Option<string>)
    ensures d.Some? <==> Total(c) > 0
    ensures d.Some? ==> d.value in Values(c)
  {
    if Total(c) == 0 then None else Some(Pick(c, r % Total(c)).value)
  }

  /** A non-empty collection with positive weights always yields a draw. */
  lemma {:induction false} PositiveTotal(c: Collection)
    requires c != [] && Positive(c)
    ensures Total(c) >= |c|
  {
    if |c| > 1 {
      PositiveTotal(c[1..]);
    }
  }

  /** The weight of everything before position `k`. */
  function Before(c: Collection, k: nat): nat
    requires k <= |c|
  {
    Total(c[..k])
  }

  /**
   * Every element of positive weight is reachable: the draw at the element's
   * cumulative offset returns it, so no member is excluded by the model of
   * the random source.
   */
  lemma {:induction false} DrawReaches(c: Collection, k: nat)
    requires k < |c| && c[k].weight > 0
    ensures Before(c, k) + c[k].weight <= Total(c)
    ensures Draw(c, Before(c, k)) == Some(c[k].value)
  {
    PickAt(c, k);
    DrawBelow(c, Before(c, k));
  }

  /** A number already below the total needs no reduction. */
  lemma DrawBelow(c: Collection, r: nat)
    requires r < Total(c)
    ensures Draw(c, r) == Some(Pick(c, r).value)
  {
    var n := Total(c);
    assert r % n == r;
  }

  lemma {:induction false} PickAt(c: Collection, k: nat)
    requires k < |c| && c[k].weight > 0
    ensures Before(c, k) + c[k].weight <= Total(c)
    ensures Pick(c, Before(c, k)) == c[k]
  {
    if k == 0 {
      assert c[..0] == [];
    } else {
      PickAt(c[1..], k - 1);
      assert c[..k][1..] == c[1..][..k - 1];
    }
  }
}
