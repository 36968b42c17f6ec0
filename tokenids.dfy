/**
 * The token-ID table (`create_tokenID_enum`): every token name of every rule
 * set, without duplicates, in Python's `sorted` order; the Enum built from it
 * numbers the names 1, 2, 3, ... in that order.
 */
module TokenIds {
  import opened Wrappers

  /** Python's `<` on `str`: lexicographic by code point, a proper prefix first. */
  predicate Less(a: string, b: string)
    decreases |a|
  {
    if a == [] then b != []
    else if b == [] then false
    else if a[0] != b[0] then a[0] < b[0]
    else Less(a[1..], b[1..])
  }

  lemma {:induction false} LessIrreflexive(a: string)
    ensures !Less(a, a)
    decreases |a|
  {
    if a != [] { LessIrreflexive(a[1..]); }
  }

  lemma {:induction false} LessTransitive(a: string, b: string, c: string)
    requires Less(a, b) && Less(b, c)
    ensures Less(a, c)
    decreases |a|
  {
    if a != [] && b != [] && c != [] && a[0] == b[0] && b[0] == c[0] {
      LessTransitive(a[1..], b[1..], c[1..]);
    }
  }

  lemma {:induction false} LessTotal(a: string, b: string)
    requires a != b
    ensures Less(a, b) || Less(b, a)
    decreases |a|
  {
    if a != [] && b != [] && a[0] == b[0] {
      assert a == [a[0]] + a[1..] && b == [b[0]] + b[1..];
      LessTotal(a[1..], b[1..]);
    }
  }

  /** Strictly increasing, hence free of duplicates. */
  ghost predicate StrictlySorted(t: seq<string>)
  {
    forall i, j :: 0 <= i < j < |t| ==> Less(t[i], t[j])
  }

  /** `t` with `x` added at its sorted place, unless it is already there. */
  function Insert(t: seq<string>, x: string): (r: seq<string>)
    requires StrictlySorted(t)
    ensures StrictlySorted(r)
    ensures forall y :: y in r <==> y in t || y == x
    ensures |r| <= |t| + 1
  {
    if t == [] then [x]
    else if x == t[0] then t
    else if Less(x, t[0]) then
      assert forall i :: 0 <= i < |t| ==> Less(x, t[i]) by {
        forall i | 0 < i < |t| { LessTransitive(x, t[0], t[i]); }
      }
      [x] + t
    else
      var rest := Insert(t[1..], x);
      LessTotal(x, t[0]);
      assert forall y :: y in rest ==> Less(t[0], y);
      [t[0]] + rest
  }

  /** Insert every name of `names` into `t`, left to right. */
  function InsertAll(t: seq<string>, names: seq<string>): (r: seq<string>)
    requires StrictlySorted(t)
    ensures StrictlySorted(r)
    ensures forall y :: y in r <==> y in t || y in names
    decreases |names|
  {
    if names == [] then t else InsertAll(Insert(t, names[0]), names[1..])
  }

  /** `sorted(set(names))`. */
  function Table(names: seq<string>): (r: seq<string>)
    ensures StrictlySorted(r)
    ensures forall y :: y in r <==> y in names
  {
    InsertAll([], names)
  }

  lemma {:induction false} LessAsymmetric(a: string, b: string)
    requires Less(a, b)
    ensures !Less(b, a)
    decreases |a|
  {
    if a != [] && b != [] && a[0] == b[0] {
      LessAsymmetric(a[1..], b[1..]);
    }
  }

  /** The first element of a strictly sorted sequence is its least one. */
  lemma FirstIsLeast(t: seq<string>, y: string)
    requires StrictlySorted(t) && y in t
    ensures y == t[0] || Less(t[0], y)
  {
  }

  /**
   * There is only one strictly sorted sequence of a given set of names, so the
   * table does not depend on the order in which the rules declare them.
   */
  lemma {:induction false} SortedUnique(a: seq<string>, b: seq<string>)
    requires StrictlySorted(a) && StrictlySorted(b)
    requires forall y :: y in a <==> y in b
    ensures a == b
    decreases |a|
  {
    assert a != [] ==> a[0] in b;
    assert b != [] ==> b[0] in a;
    if a != [] && b != [] {
      // the first element of each is the least one of the common set
      FirstIsLeast(a, b[0]);
      FirstIsLeast(b, a[0]);
      if Less(a[0], b[0]) { LessAsymmetric(a[0], b[0]); }
      assert a[0] == b[0];
      LessIrreflexive(a[0]);
      forall y ensures y in a[1..] <==> y in b[1..] {
        if y in a[1..] {
          var i :| 1 <= i < |a| && a[i] == y;
          assert Less(a[0], y) && y in b;
          assert b == [b[0]] + b[1..];
        }
        if y in b[1..] {
          var i :| 1 <= i < |b| && b[i] == y;
          assert Less(b[0], y) && y in a;
          assert a == [a[0]] + a[1..];
        }
      }
      SortedUnique(a[1..], b[1..]);
    }
  }

  /** Any two lists of declared names with the same members, in any order and repetition, give the same table. */
  lemma TableOrderIndependent(names: seq<string>, names': seq<string>)
    requires forall y :: y in names <==> y in names'
    ensures Table(names) == Table(names')
  {
    SortedUnique(Table(names), Table(names'));
  }

  /** `TokenID[name]`: the Enum member of `name`, numbered from 1; None for KeyError. */
  function LookupId(t: seq<string>, name: string): (r: Option<nat>)
    ensures r.Some? ==> 1 <= r.value <= |t| && t[r.value - 1] == name
    ensures r.Some? ==> forall i :: 0 <= i < r.value - 1 ==> t[i] != name
    ensures r.None? <==> name !in t
  {
    if t == [] then None
    else if t[0] == name then Some(1)
    else match LookupId(t[1..], name)
      case None => None
      case Some(k) => Some(k + 1)
  }

  /** In the generated table, the IDs follow the sorted order of the names. */
  lemma {:induction false} IdsFollowOrder(names: seq<string>, a: string, b: string)
    requires a in names && b in names && Less(a, b)
    ensures LookupId(Table(names), a).value < LookupId(Table(names), b).value
  {
    var t := Table(names);
    LessAsymmetric(a, b);
    LessIrreflexive(a);
  }
}
