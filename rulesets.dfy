/**
 * Rule-set handling of the Tokenizer: normalising the rule specification
 * (`__tmscvt`), compiling each rule set into named alternation branches
 * (`__init__`), the alternation match that the regex engine performs on them,
 * and rule-set selection (`activate_ruleset`).
 */
module RuleSets {
  import opened Wrappers
  import opened Rules
  import TokenIds

  /** One rule set of the mapping: its key and its rules, in declaration order. */
  type Entry = (SetName, seq<Rule>)

  /** The `tms` argument: a bare rule list, or a mapping in insertion order. */
  datatype Spec = Bare(rules: seq<Rule>) | Mapping(entries: seq<Entry>)

  /** The two `ValueError`s of normalisation. */
  datatype ConfigError = NoDefault | ZeroLengthRuleset

  function Keys(es: seq<Entry>): (ks: seq<SetName>)
    ensures |ks| == |es| && forall i :: 0 <= i < |es| ==> ks[i] == es[i].0
  {
    if es == [] then [] else [es[0].0] + Keys(es[1..])
  }

  ghost predicate DistinctKeys(es: seq<Entry>)
  {
    forall i, j :: 0 <= i < j < |es| ==> es[i].0 != es[j].0
  }

  /** A Python mapping has no key twice. */
  ghost predicate WellKeyed(spec: Spec)
  {
    spec.Mapping? ==> DistinctKeys(spec.entries)
  }

  /** What the Tokenizer works from once normalisation succeeded. */
  ghost predicate ValidEntries(es: seq<Entry>)
  {
    && DistinctKeys(es)
    && Default in Keys(es)
    && forall i :: 0 <= i < |es| ==> es[i].1 != []
  }

  predicate HasEmptySet(es: seq<Entry>)
  {
    exists i :: 0 <= i < |es| && es[i].1 == []
  }

  /**
   * `__tmscvt`: a bare list becomes the default rule set; a mapping must have
   * the default key; no rule set may be empty.
   */
  function Normalise(spec: Spec): (r: Result<seq<Entry>, ConfigError>)
    requires WellKeyed(spec)
    ensures r.Ok? ==> ValidEntries(r.value)
    ensures spec.Bare? && r.Ok? ==> r.value == [(Default, spec.rules)]
    ensures spec.Mapping? && r.Ok? ==> r.value == spec.entries
    ensures r == Err(NoDefault) <==> spec.Mapping? && Default !in Keys(spec.entries)
    ensures r == Err(ZeroLengthRuleset) <==>
              (spec.Bare? && spec.rules == []) ||
              (spec.Mapping? && Default in Keys(spec.entries) && HasEmptySet(spec.entries))
  {
    match spec
    case Bare(rules) =>
      if rules == [] then Err(ZeroLengthRuleset) else Ok([(Default, rules)])
    case Mapping(es) =>
      if Default !in Keys(es) then Err(NoDefault)
      else if HasEmptySet(es) then Err(ZeroLengthRuleset)
      else Ok(es)
  }

  /** Every token name of every rule set, rule sets in order, rules in order. */
  function AllToknames(es: seq<Entry>): (names: seq<string>)
    ensures forall i, k :: 0 <= i < |es| && 0 <= k < |es[i].1| ==> es[i].1[k].tokname in names
    ensures forall n :: n in names ==>
              exists i, k :: 0 <= i < |es| && 0 <= k < |es[i].1| && es[i].1[k].tokname == n
  {
    if es == [] then [] else RuleNames(es[0].1) + AllToknames(es[1..])
  }

  function RuleNames(rules: seq<Rule>): (names: seq<string>)
    ensures |names| == |rules| && forall k :: 0 <= k < |rules| ==> names[k] == rules[k].tokname
  {
    if rules == [] then [] else [rules[0].tokname] + RuleNames(rules[1..])
  }

  /** `create_tokenID_enum`: the names of all rule sets, sorted, without duplicates. */
  function TokenTable(es: seq<Entry>): (t: seq<string>)
    ensures TokenIds.StrictlySorted(t)
    ensures forall i, k :: 0 <= i < |es| && 0 <= k < |es[i].1| ==> es[i].1[k].tokname in t
    ensures forall n :: n in t ==>
              exists i, k :: 0 <= i < |es| && 0 <= k < |es[i].1| && es[i].1[k].tokname == n
  {
    TokenIds.Table(AllToknames(es))
  }

  // ---------------------------------------------------------------------------
  // Group names: rule i of a rule set is the named group f"PN{i:04d}".

  function Digit(d: nat): char
    requires d < 10
  {
    ('0' as int + d) as char
  }

  function DigitValue(c: char): nat
  {
    if '0' <= c <= '9' then c as int - '0' as int else 0
  }

  /** Decimal digits of `n`, without leading zeros. */
  function Decimal(n: nat): (r: string)
    ensures 1 <= |r|
    ensures forall k :: 0 <= k < |r| ==> '0' <= r[k] <= '9'
  {
    if n < 10 then [Digit(n)] else Decimal(n / 10) + [Digit(n % 10)]
  }

  function Zeros(k: nat): (r: string)
    ensures |r| == k && forall i :: 0 <= i < k ==> r[i] == '0'
  {
    if k == 0 then [] else ['0'] + Zeros(k - 1)
  }

  /** `f"{n:04d}"`: at least four digits, padded on the left with zeros. */
  function Pad4(n: nat): (r: string)
  {
    var d := Decimal(n);
    if |d| >= 4 then d else Zeros(4 - |d|) + d
  }

  /** The group name of the rule with index `i`. */
  function PName(i: nat): string
  {
    "PN" + Pad4(i)
  }

  /** The value of a string of decimal digits (leading zeros allowed). */
  function ParseDecimal(s: string): nat
  {
    if s == [] then 0 else ParseDecimal(s[..|s| - 1]) * 10 + DigitValue(s[|s| - 1])
  }

  /** The rule index that a group name stands for. */
  function ParsePName(p: string): nat
  {
    if |p| < 2 then 0 else ParseDecimal(p[2..])
  }

  lemma {:induction false} DecimalRoundTrip(n: nat)
    ensures ParseDecimal(Decimal(n)) == n
  {
    if n >= 10 {
      var d := Decimal(n);
      assert d[..|d| - 1] == Decimal(n / 10);
      DecimalRoundTrip(n / 10);
    }
  }

  lemma {:induction false} LeadingZerosIgnored(k: nat, s: string)
    ensures ParseDecimal(Zeros(k) + s) == ParseDecimal(s)
    decreases |s|, k
  {
    if s == [] {
      assert Zeros(k) + s == Zeros(k);
      if k > 0 {
        assert Zeros(k)[..k - 1] == Zeros(k - 1);
        LeadingZerosIgnored(k - 1, []);
        assert Zeros(k - 1) + [] == Zeros(k - 1);
      }
    } else {
      var w := Zeros(k) + s;
      assert w[..|w| - 1] == Zeros(k) + s[..|s| - 1];
      LeadingZerosIgnored(k, s[..|s| - 1]);
    }
  }

  /** The group name gives back the rule index it was made from. */
  lemma PNameRoundTrip(i: nat)
    ensures ParsePName(PName(i)) == i
  {
    var d := Decimal(i);
    assert PName(i)[2..] == Pad4(i);
    DecimalRoundTrip(i);
    if |d| < 4 { LeadingZerosIgnored(4 - |d|, d); }
  }

  /** Different rules of one rule set get different group names. */
  lemma PNameInjective(i: nat, j: nat)
    requires PName(i) == PName(j)
    ensures i == j
  {
    PNameRoundTrip(i);
    PNameRoundTrip(j);
  }

  lemma {:induction false} DecimalLength(n: nat)
    ensures n < 10 ==> |Decimal(n)| == 1
    ensures n < 100 ==> |Decimal(n)| <= 2
    ensures n < 1000 ==> |Decimal(n)| <= 3
    ensures n < 10000 ==> |Decimal(n)| <= 4
  {
    if n >= 10 { DecimalLength(n / 10); }
  }

  /** Below 10000 every group name has exactly four digits. */
  lemma PNameWidth(i: nat)
    requires i < 10000
    ensures |PName(i)| == 6 && PName(i)[..2] == "PN"
  {
    DecimalLength(i);
  }

  // ---------------------------------------------------------------------------
  // Compilation

  /** One alternative of the joined regexp: `(?P<pname>regexp)`. */
  datatype Branch = Branch(pname: string, regexp: string)

  /** A compiled rule set: the alternation's branches, the group map, the key. */
  datatype RuleSet = RuleSet(branches: seq<Branch>, pmap: map<string, Rule>, name: SetName)

  /** `pmap = {f"PN{i:04d}": tm for i, tm in enumerate(tms)}`. */
  function PMap(rules: seq<Rule>): (m: map<string, Rule>)
    ensures forall i :: 0 <= i < |rules| ==> PName(i) in m && m[PName(i)] == rules[i]
    ensures forall p :: p in m ==> ParsePName(p) < |rules| && p == PName(ParsePName(p))
  {
    forall i: nat, j: nat | PName(i) == PName(j) ensures i == j { PNameInjective(i, j); }
    forall i: nat ensures ParsePName(PName(i)) == i { PNameRoundTrip(i); }
    map i | 0 <= i < |rules| :: PName(i) := rules[i]
  }

  /**
   * The branches for rules `k..`: one per rule with a regexp, in declaration
   * order; rules without a regexp are left out.
   */
  function BranchesFrom(rules: seq<Rule>, k: nat): seq<Branch>
    requires k <= |rules|
    decreases |rules| - k
  {
    if k == |rules| then []
    else if rules[k].regexp.Some? then
      [Branch(PName(k), rules[k].regexp.value)] + BranchesFrom(rules, k + 1)
    else BranchesFrom(rules, k + 1)
  }

  /** Each branch is the group of one regexp-bearing rule at or after `k`. */
  lemma {:induction false} BranchesSound(rules: seq<Rule>, k: nat, j: nat)
    requires k <= |rules| && j < |BranchesFrom(rules, k)|
    ensures var b := BranchesFrom(rules, k)[j];
      k <= ParsePName(b.pname) < |rules| && b.pname == PName(ParsePName(b.pname)) &&
      rules[ParsePName(b.pname)].regexp == Some(b.regexp)
    decreases |rules| - k
  {
    var r := BranchesFrom(rules, k);
    var rest := BranchesFrom(rules, k + 1);
    if rules[k].regexp.Some? {
      assert r == [Branch(PName(k), rules[k].regexp.value)] + rest;
      if j == 0 {
        PNameRoundTrip(k);
      } else {
        assert r[j] == rest[j - 1];
        BranchesSound(rules, k + 1, j - 1);
      }
    } else {
      assert r == rest;
      BranchesSound(rules, k + 1, j);
    }
  }

  /** A branch made from rules `k..` names a rule at or after `k`. */
  lemma BranchesAbove(rules: seq<Rule>, k: nat, j: nat)
    requires k <= |rules| && j < |BranchesFrom(rules, k)|
    ensures k <= ParsePName(BranchesFrom(rules, k)[j].pname)
  {
    BranchesSound(rules, k, j);
  }

  /** The first branch, when rule `k` has a regexp, precedes every later one. */
  lemma BranchesFirst(rules: seq<Rule>, k: nat, j': nat)
    requires k < |rules| && rules[k].regexp.Some?
    requires 0 < j' < |BranchesFrom(rules, k)|
    ensures ParsePName(BranchesFrom(rules, k)[0].pname) < ParsePName(BranchesFrom(rules, k)[j'].pname)
  {
    var r := BranchesFrom(rules, k);
    assert r[0].pname == PName(k);
    PNameRoundTrip(k);
    BranchesAbove(rules, k + 1, j' - 1);
    BranchesTail(rules, k, j');
  }

  /** Past the first, the branches from `k` are those from `k + 1`, when rule `k` has a regexp. */
  lemma BranchesTail(rules: seq<Rule>, k: nat, j: nat)
    requires k < |rules| && rules[k].regexp.Some?
    requires 0 < j < |BranchesFrom(rules, k)|
    ensures BranchesFrom(rules, k)[j] == BranchesFrom(rules, k + 1)[j - 1]
  {
  }

  /** The branches follow declaration order. */
  lemma {:induction false} BranchesOrdered(rules: seq<Rule>, k: nat, j: nat, j': nat)
    requires k <= |rules| && j < j' < |BranchesFrom(rules, k)|
    ensures ParsePName(BranchesFrom(rules, k)[j].pname) < ParsePName(BranchesFrom(rules, k)[j'].pname)
    decreases |rules| - k
  {
    var r := BranchesFrom(rules, k);
    var rest := BranchesFrom(rules, k + 1);
    if rules[k].regexp.Some? {
      if j == 0 {
        BranchesFirst(rules, k, j');
      } else {
        BranchesTail(rules, k, j);
        BranchesTail(rules, k, j');
        BranchesOrdered(rules, k + 1, j - 1, j' - 1);
      }
    } else {
      assert r == rest;
      BranchesOrdered(rules, k + 1, j, j');
    }
  }

  /** Every regexp-bearing rule at or after `k` has its branch. */
  lemma {:induction false} BranchesComplete(rules: seq<Rule>, k: nat, i: nat)
    requires k <= i < |rules| && rules[i].regexp.Some?
    ensures exists j :: 0 <= j < |BranchesFrom(rules, k)| && BranchesFrom(rules, k)[j].pname == PName(i)
    decreases |rules| - k
  {
    var r := BranchesFrom(rules, k);
    var rest := BranchesFrom(rules, k + 1);
    if i == k {
      assert r[0].pname == PName(i);
    } else {
      BranchesComplete(rules, k + 1, i);
      var j :| 0 <= j < |rest| && rest[j].pname == PName(i);
      if rules[k].regexp.Some? {
        assert r == [Branch(PName(k), rules[k].regexp.value)] + rest;
        assert r[j + 1] == rest[j];
      } else {
        assert r == rest;
      }
    }
  }

  /** The rule set named `name`, compiled from `rules`. */
  function Compile(name: SetName, rules: seq<Rule>): (rs: RuleSet)
    ensures rs.name == name
    ensures forall j :: 0 <= j < |rs.branches| ==>
              rs.branches[j].pname in rs.pmap &&
              rs.pmap[rs.branches[j].pname].regexp == Some(rs.branches[j].regexp)
  {
    var bs := BranchesFrom(rules, 0);
    var m := PMap(rules);
    forall j | 0 <= j < |bs|
      ensures bs[j].pname in m && m[bs[j].pname].regexp == Some(bs[j].regexp)
    {
      BranchesSound(rules, 0, j);
    }
    RuleSet(bs, m, name)
  }

  // ---------------------------------------------------------------------------
  // The regex engine, seen from outside

  /** A match span `[start, end)`. */
  datatype Span = Span(start: nat, end: nat)

  /**
   * The regex engine, for one regexp: the leftmost match of `rx` in `t` at or
   * after position `pos` (as the next item of `re.finditer` would give it).
   */
  type Search = (string, string, nat) -> Option<Span>

  /** The engine's matches lie ahead of `pos`, within `t`, and are non-empty. */
  ghost predicate WellFormedSearch(search: Search)
  {
    forall rx: string, t: string, pos: nat :: search(rx, t, pos).Some? ==>
      pos <= search(rx, t, pos).value.start < search(rx, t, pos).value.end <= |t|
  }

  /** A match of the alternation: the branch that fired (`lastgroup`) and its span. */
  datatype Hit = Hit(branch: nat, span: Span)

  /**
   * The match of the whole alternation from branch `k` on: the branch whose
   * match starts first, the earliest-declared one among those starting there
   * (`AlternationFromNone`, `AlternationFromFirst`).
   */
  function AlternationFrom(bs: seq<Branch>, search: Search, t: string, pos: nat, k: nat): (r: Option<Hit>)
    requires k <= |bs|
    ensures r.Some? ==>
              k <= r.value.branch < |bs| && search(bs[r.value.branch].regexp, t, pos) == Some(r.value.span)
    decreases |bs| - k
  {
    if k == |bs| then None
    else
      var here := search(bs[k].regexp, t, pos);
      var rest := AlternationFrom(bs, search, t, pos, k + 1);
      if here.None? then rest
      else if rest.None? || here.value.start <= rest.value.span.start then Some(Hit(k, here.value))
      else rest
  }

  /** There is no match exactly when no branch from `k` on matches. */
  lemma {:induction false} AlternationFromNone(bs: seq<Branch>, search: Search, t: string, pos: nat, k: nat)
    requires k <= |bs|
    ensures AlternationFrom(bs, search, t, pos, k).None? <==>
              forall j :: k <= j < |bs| ==> search(bs[j].regexp, t, pos).None?
    decreases |bs| - k
  {
    if k < |bs| {
      AlternationFromNone(bs, search, t, pos, k + 1);
    }
  }

  /** The match found starts no later than any branch's, and wins ties by declaration order. */
  lemma {:induction false} AlternationFromFirst(bs: seq<Branch>, search: Search, t: string, pos: nat, k: nat, j: nat)
    requires k <= j < |bs| && search(bs[j].regexp, t, pos).Some?
    ensures var r := AlternationFrom(bs, search, t, pos, k);
      var sp := search(bs[j].regexp, t, pos).value;
      r.Some? && (r.value.span.start < sp.start || (r.value.span.start == sp.start && r.value.branch <= j))
    decreases |bs| - k
  {
    if k < j {
      AlternationFromFirst(bs, search, t, pos, k + 1, j);
    }
  }

  /** The match of the joined regexp. */
  function Alternation(bs: seq<Branch>, search: Search, t: string, pos: nat): (r: Option<Hit>)
  {
    AlternationFrom(bs, search, t, pos, 0)
  }

  /** Of two branches that match at the same place, the earlier-declared one fires. */
  lemma TieGoesToEarlierRule(bs: seq<Branch>, search: Search, t: string, pos: nat, j: nat, j': nat)
    requires j < j' < |bs|
    requires search(bs[j].regexp, t, pos).Some? && search(bs[j'].regexp, t, pos).Some?
    requires search(bs[j].regexp, t, pos).value.start == search(bs[j'].regexp, t, pos).value.start
    ensures Alternation(bs, search, t, pos).Some?
    ensures Alternation(bs, search, t, pos).value.branch != j'
  {
    AlternationFromFirst(bs, search, t, pos, 0, j);
  }

  // ---------------------------------------------------------------------------
  // Rule-set selection

  ghost predicate Distinct(names: seq<SetName>)
  {
    forall i, j :: 0 <= i < j < |names| ==> names[i] != names[j]
  }

  /** `rulenames.index(name)`. */
  function IndexOf(names: seq<SetName>, n: SetName): (i: nat)
    requires n in names
    ensures i < |names| && names[i] == n
    ensures forall j :: 0 <= j < i ==> names[j] != n
  {
    if names[0] == n then 0 else 1 + IndexOf(names[1..], n)
  }

  /** The rule set after `cur`, in insertion order, wrapping around at the end. */
  function NextName(names: seq<SetName>, cur: SetName): (r: SetName)
    requires cur in names
    ensures r in names
  {
    names[(IndexOf(names, cur) + 1) % |names|]
  }

  /**
   * `activate_ruleset(newrule)`: the new active rule set, or None where the
   * lookup `self.rulesets[newrule]` raises `KeyError`.
   */
  function Activate(names: seq<SetName>, cur: SetName, newrule: SetName): (r: Option<SetName>)
    requires cur in names
    ensures newrule == NextSet ==> r == Some(NextName(names, cur))
    ensures newrule != NextSet ==> (r.Some? <==> newrule in names)
    ensures newrule != NextSet && r.Some? ==> r.value == newrule
    ensures r.Some? ==> r.value in names
  {
    if newrule == NextSet then Some(NextName(names, cur))
    else if newrule in names then Some(newrule)
    else None
  }

  /** `k` successive `activate_ruleset("_next")` calls. */
  function NextN(names: seq<SetName>, cur: SetName, k: nat): (r: SetName)
    requires cur in names
    ensures r in names
    decreases k
  {
    if k == 0 then cur else NextN(names, NextName(names, cur), k - 1)
  }

  lemma ModSmall(j: nat, n: nat)
    requires 0 < j <= n
    ensures j % n == if j == n then 0 else j
  {
  }

  lemma {:induction false} IndexOfDistinct(names: seq<SetName>, k: nat)
    requires Distinct(names) && k < |names|
    ensures IndexOf(names, names[k]) == k
  {
    var i := IndexOf(names, names[k]);
    assert !(i < k);
  }

  /** With distinct names, "_next" moves one place on, wrapping at the end. */
  lemma NextNameIndex(names: seq<SetName>, cur: SetName)
    requires Distinct(names) && cur in names
    ensures IndexOf(names, NextName(names, cur)) == (IndexOf(names, cur) + 1) % |names|
  {
    IndexOfDistinct(names, (IndexOf(names, cur) + 1) % |names|);
  }

  /** Within one round, k steps of "_next" move k places, wrapping past the end once. */
  lemma {:induction false} NextNIndex(names: seq<SetName>, cur: SetName, k: nat)
    requires Distinct(names) && cur in names && k <= |names|
    ensures var i := IndexOf(names, cur);
      IndexOf(names, NextN(names, cur, k)) == if i + k < |names| then i + k else i + k - |names|
    decreases k
  {
    if k > 0 {
      var i := IndexOf(names, cur);
      var nx := NextName(names, cur);
      NextNameIndex(names, cur);
      ModSmall(i + 1, |names|);
      NextNIndex(names, nx, k - 1);
      assert NextN(names, cur, k) == NextN(names, nx, k - 1);
      if i + 1 < |names| {
        assert IndexOf(names, nx) == i + 1;
      } else {
        assert IndexOf(names, nx) == 0;
      }
    }
  }

  /** n calls of `activate_ruleset("_next")` over n rule sets come back to the start. */
  lemma NextWrapsAround(names: seq<SetName>, cur: SetName)
    requires Distinct(names) && cur in names
    ensures NextN(names, cur, |names|) == cur
  {
    NextNIndex(names, cur, |names|);
  }
}
