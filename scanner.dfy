/**
 * The Tokenizer object: its compiled rule sets, its token-ID table, the
 * active rule set (`self.rules`), and the scan of one string
 * (`string_to_tokens`) and of a sequence of strings (`tokens`).
 */
module Scanner {
  import opened Wrappers
  import opened Rules
  import opened RuleSets
  import TokenIds

  /** Where a token was matched: source name, line number, span in the string. */
  datatype TokLoc = TokLoc(source: Option<string>, line: Option<int>, start: nat, end: nat)

  /** A token: its ID, value, the whole string it came from, and its location. */
  datatype Token = Token(id: nat, value: Value, origin: string, location: TokLoc)

  /** The three ways a scan fails. */
  datatype ScanError =
    | Unmatched(at: nat)              // ValueError "unmatched @so_far"
    | UnknownTokname(name: string)    // ValueError "unknown tokname"
    | UnknownRuleset(setname: SetName)   // KeyError in activate_ruleset
    | UnnamedMatch(at: nat)           // KeyError on pmap[None]: the empty alternation matched

  // ---------------------------------------------------------------------------
  // The compiled rule sets
  //
  // `self.rules` is one of the RuleSet objects of `self.rulesets`; the model
  // identifies it by its position there.

  /** The keys of the compiled rule sets, in insertion order (`list(self.rulesets)`). */
  function Names(sets: seq<RuleSet>): (ns: seq<SetName>)
    ensures |ns| == |sets| && forall i :: 0 <= i < |sets| ==> ns[i] == sets[i].name
  {
    if sets == [] then [] else [sets[0].name] + Names(sets[1..])
  }

  /** The position of the rule set keyed `name` (`self.rulesets[name]`); None is the `KeyError`. */
  function Find(sets: seq<RuleSet>, name: SetName): (r: Option<nat>)
    ensures r.None? <==> forall i :: 0 <= i < |sets| ==> sets[i].name != name
    ensures r.Some? ==> r.value < |sets| && sets[r.value].name == name
  {
    if sets == [] then None
    else if sets[0].name == name then Some(0)
    else match Find(sets[1..], name)
      case None => None
      case Some(k) => Some(k + 1)
  }

  /**
   * `activate_ruleset(newrule)` on positions: "_next" moves to the following
   * rule set, wrapping around; any other key moves to that rule set.
   */
  function Switch(sets: seq<RuleSet>, cur: nat, newrule: SetName): (r: Option<nat>)
    requires cur < |sets|
    ensures r.Some? ==> r.value < |sets|
  {
    if newrule == NextSet then Some((cur + 1) % |sets|) else Find(sets, newrule)
  }

  /** Distinct keys make a list of distinct names. */
  lemma NamesDistinct(sets: seq<RuleSet>)
    requires DistinctNames(sets)
    ensures Distinct(Names(sets))
  {
    var names := Names(sets);
    forall i, j | 0 <= i < j < |names| ensures names[i] != names[j] {
      assert names[i] == sets[i].name && names[j] == sets[j].name;
    }
  }

  /** A switch to a named rule set fails, or succeeds with that rule set, as the key lookup does. */
  lemma SwitchNamedIsActivate(sets: seq<RuleSet>, cur: nat, newrule: SetName)
    requires cur < |sets| && newrule != NextSet
    ensures var r := Activate(Names(sets), sets[cur].name, newrule);
      var i := Switch(sets, cur, newrule);
      (i.Some? <==> r.Some?) && (i.Some? ==> sets[i.value].name == r.value)
  {
    var names := Names(sets);
    assert names[cur] == sets[cur].name;
    var f := Find(sets, newrule);
    if f.Some? {
      assert names[f.value] == newrule;
    }
  }

  /**
   * With distinct keys, switching by position is `activate_ruleset` on keys:
   * the same requests fail, and the others reach the rule set of the same key.
   */
  lemma SwitchIsActivate(sets: seq<RuleSet>, cur: nat, newrule: SetName)
    requires cur < |sets| && DistinctNames(sets)
    ensures var r := Activate(Names(sets), sets[cur].name, newrule);
      var i := Switch(sets, cur, newrule);
      (i.Some? <==> r.Some?) && (i.Some? ==> sets[i.value].name == r.value)
  {
    if newrule == NextSet {
      var names := Names(sets);
      NamesDistinct(sets);
      assert names[cur] == sets[cur].name;
      IndexOfDistinct(names, cur);
      assert NextName(names, sets[cur].name) == names[(cur + 1) % |sets|];
    } else {
      SwitchNamedIsActivate(sets, cur, newrule);
    }
  }

  /** Every rule set of the Tokenizer, compiled in insertion order. */
  function CompileAll(es: seq<Entry>): (sets: seq<RuleSet>)
    ensures |sets| == |es| && forall i :: 0 <= i < |es| ==> sets[i].name == es[i].0
  {
    if es == [] then [] else [Compile(es[0].0, es[0].1)] + CompileAll(es[1..])
  }

  /** The `i`-th rule set is the compilation of the `i`-th rule list. */
  lemma {:induction false} CompileAllAt(es: seq<Entry>, i: nat)
    requires i < |es|
    ensures CompileAll(es)[i] == Compile(es[i].0, es[i].1)
    decreases i
  {
    if i > 0 {
      CompileAllAt(es[1..], i - 1);
    }
  }

  /** Every branch's group name resolves in its own rule set's `pmap`. */
  ghost predicate WellCompiled(sets: seq<RuleSet>)
  {
    forall i, j :: 0 <= i < |sets| && 0 <= j < |sets[i].branches| ==>
      sets[i].branches[j].pname in sets[i].pmap
  }

  /** What a scan needs: resolvable groups, an active rule set that exists, a well-behaved engine. */
  ghost predicate Ready(sets: seq<RuleSet>, search: Search, active: nat)
  {
    WellCompiled(sets) && active < |sets| && WellFormedSearch(search)
  }

  /** No two rule sets share a key. */
  ghost predicate DistinctNames(sets: seq<RuleSet>)
  {
    forall i, j :: 0 <= i < j < |sets| ==> sets[i].name != sets[j].name
  }

  lemma {:induction false} CompileAllWellCompiled(es: seq<Entry>)
    ensures WellCompiled(CompileAll(es))
  {
    var sets := CompileAll(es);
    forall i, j | 0 <= i < |sets| && 0 <= j < |sets[i].branches|
      ensures sets[i].branches[j].pname in sets[i].pmap
    {
      CompileAllAt(es, i);
    }
  }

  /** The compiled rule sets keep the keys, so distinct keys stay distinct... */
  lemma CompileAllNames(es: seq<Entry>)
    requires DistinctKeys(es)
    ensures DistinctNames(CompileAll(es))
  {
  }

  /** ...and the default rule set is found among them. */
  lemma {:induction false} CompileAllDefault(es: seq<Entry>)
    requires Default in Keys(es)
    ensures Find(CompileAll(es), Default).Some?
  {
    var sets := CompileAll(es);
    var i :| 0 <= i < |es| && Keys(es)[i] == Default;
    assert sets[i].name == Default;
  }

  /** What the constructor needs of the compiled rule sets. */
  lemma CompileAllReady(es: seq<Entry>)
    requires Default in Keys(es)
    ensures var sets := CompileAll(es);
      WellCompiled(sets) && Find(sets, Default).Some?
  {
    CompileAllWellCompiled(es);
    CompileAllDefault(es);
  }

  // ---------------------------------------------------------------------------
  // One match's fate

  /** How `self.TokenID[minfo.tokname]` treats a post-processed name. */
  datatype Resolution = Skip | Emit(id: nat) | Unknown(name: string)

  /** None is suppressed, a name of the table gets its ID, any other name is an error. */
  function Resolve(table: seq<string>, tokname: Option<string>): (r: Resolution)
    ensures r.Skip? <==> tokname.None?
    ensures r.Unknown? <==> tokname.Some? && tokname.value !in table
    ensures r.Unknown? ==> r.name == tokname.value
    ensures r.Emit? ==> 1 <= r.id <= |table| && table[r.id - 1] == tokname.value
  {
    if tokname.None? then Skip
    else match TokenIds.LookupId(table, tokname.value)
      case None => Unknown(tokname.value)
      case Some(id) => Emit(id)
  }

  /** One accepted match: the span it consumed and the rule that fired. */
  datatype Step = Step(span: Span, rule: Rule)

  /** The outcome of a scan; `stop` is the final `so_far`. */
  datatype ScanResult = ScanResult(
    tokens: seq<Token>, trace: seq<Step>, stop: nat, error: Option<ScanError>, active: nat)

  /** The end of a scan: no (adjacent) match at `soFar`; an error unless all of `s` is consumed. */
  function Finish(s: string, soFar: nat, active: nat): ScanResult
  {
    ScanResult([], [], soFar, if soFar == |s| then None else Some(Unmatched(soFar)), active)
  }

  /**
   * The next accepted match, or `Halt` when none starts at `soFar`, or
   * `Unnamed` when the rule set has no branches: its joined regexp is `''`,
   * which matches the empty string at once, in no named group.
   */
  datatype Move = Halt | Unnamed | Take(step: Step, info: MatchedInfo, switchTo: Option<SetName>, next: Option<nat>)

  /**
   * One round of the loop of `string_to_tokens`: the alternation of rule set
   * `active` searches `s[base..]` (the slice its `finditer` was started on)
   * from `soFar`; a match is accepted only if it starts exactly at `soFar`.
   * It is then post-processed, and a requested rule switch is looked up
   * (`next` is None where that lookup fails).
   */
  function NextMove(sets: seq<RuleSet>, search: Search, s: string,
                    active: nat, base: nat, soFar: nat): (m: Move)
    requires Ready(sets, search, active)
    requires base <= soFar <= |s|
    ensures m.Unnamed? <==> sets[active].branches == []
    ensures m.Take? ==> m.step.span.start == soFar < m.step.span.end <= |s|
    ensures m.Take? ==> Outcome(m.info, m.switchTo) == Matched(m.step.rule, s[soFar..m.step.span.end])
    ensures m.Take? ==> m.next == if m.switchTo.Some? then Switch(sets, active, m.switchTo.value)
                                  else Some(active)
  {
    var rs := sets[active];
    if rs.branches == [] then Unnamed
    else
    var hit := Alternation(rs.branches, search, s[base..], soFar - base);
    if hit.None? || hit.value.span.start + base != soFar then Halt
    else
      var sp := Span(soFar, hit.value.span.end + base);
      var rule := rs.pmap[rs.branches[hit.value.branch].pname];
      var out := Matched(rule, s[sp.start..sp.end]);
      var next := if out.switchTo.Some? then Switch(sets, active, out.switchTo.value)
                  else Some(active);
      Take(Step(sp, rule), out.info, out.switchTo, next)
  }

  /** Branch `b`'s next match in `t` from `p` starts right at `p`. */
  ghost predicate MatchesAt(b: Branch, search: Search, t: string, p: nat)
  {
    search(b.regexp, t, p).Some? && search(b.regexp, t, p).value.start == p
  }

  /**
   * What a round means (`pmap[mobj.lastgroup]` over the alternation in
   * declaration order): it halts exactly when the rule set has branches but
   * none matches right at `soFar`; otherwise it takes the match of the
   * first-declared branch that does, and credits that branch's rule.
   */
  lemma {:induction false} NextMoveFirstMatch(sets: seq<RuleSet>, search: Search, s: string,
                                              active: nat, base: nat, soFar: nat)
    requires Ready(sets, search, active)
    requires base <= soFar <= |s|
    ensures var m := NextMove(sets, search, s, active, base, soFar);
      var bs := sets[active].branches;
      var t := s[base..];
      var p := soFar - base;
      && (m.Halt? <==> bs != [] && forall j :: 0 <= j < |bs| ==> !MatchesAt(bs[j], search, t, p))
      && (m.Take? ==> exists j :: (
            && 0 <= j < |bs| && MatchesAt(bs[j], search, t, p)
            && m.step.rule == sets[active].pmap[bs[j].pname]
            && search(bs[j].regexp, t, p) == Some(Span(p, m.step.span.end - base))
            && forall j' :: 0 <= j' < j ==> !MatchesAt(bs[j'], search, t, p)))
  {
    var bs := sets[active].branches;
    var t := s[base..];
    var p := soFar - base;
    if bs != [] {
      AlternationFromNone(bs, search, t, p, 0);
      forall j | 0 <= j < |bs| && MatchesAt(bs[j], search, t, p)
        ensures var r := Alternation(bs, search, t, p);
          r.Some? && r.value.span.start == p && r.value.branch <= j
      {
        AlternationFromFirst(bs, search, t, p, 0, j);
      }
    }
  }

  /** The search base of the round after `m`: unchanged unless the rule set changed. */
  function NextBase(m: Move, active: nat, base: nat): nat
    requires m.Take? && m.next.Some?
  {
    if m.next.value == active then base else m.step.span.end
  }

  /** The token (if any) a taken match yields: `Skip` yields none, `Emit` one. */
  function MoveTokens(table: seq<string>, s: string, line: Option<int>, src: Option<string>,
                      m: Move): seq<Token>
    requires m.Take?
  {
    match Resolve(table, m.info.tokname)
    case Emit(id) => [Token(id, m.info.value, s, TokLoc(src, line, m.step.span.start, m.step.span.end))]
    case _ => []
  }

  /**
   * The loop of `string_to_tokens` from `soFar` on, with rule set `active`
   * searching from `base`. Each accepted match is consumed and then yields a
   * token, nothing (a suppressed name), or an error; when the active rule set
   * changes, the search restarts on `s[soFar..]`.
   */
  function Scan(sets: seq<RuleSet>, table: seq<string>, search: Search, s: string,
                line: Option<int>, src: Option<string>,
                active: nat, base: nat, soFar: nat): (r: ScanResult)
    requires Ready(sets, search, active)
    requires base <= soFar <= |s|
    ensures soFar <= r.stop <= |s|
    ensures r.active < |sets|
    decreases |s| - soFar
  {
    var m := NextMove(sets, search, s, active, base, soFar);
    if m.Halt? then Finish(s, soFar, active)
    else if m.Unnamed? then ScanResult([], [], soFar, Some(UnnamedMatch(soFar)), active)
    else if m.next.None? then
      ScanResult([], [m.step], m.step.span.end, Some(UnknownRuleset(m.switchTo.value)), active)
    else
      var out := Resolve(table, m.info.tokname);
      if out.Unknown? then
        ScanResult([], [m.step], m.step.span.end, Some(UnknownTokname(out.name)), m.next.value)
      else
        var rest := Scan(sets, table, search, s, line, src, m.next.value,
                         NextBase(m, active, base), m.step.span.end);
        ScanResult(MoveTokens(table, s, line, src, m) + rest.tokens, [m.step] + rest.trace,
                   rest.stop, rest.error, rest.active)
  }

  /** One round of `Scan`, spelled out case by case. */
  lemma {:induction false} ScanUnfold(sets: seq<RuleSet>, table: seq<string>, search: Search, s: string,
                   line: Option<int>, src: Option<string>,
                   active: nat, base: nat, soFar: nat)
    requires Ready(sets, search, active)
    requires base <= soFar <= |s|
    ensures var m := NextMove(sets, search, s, active, base, soFar);
      var r := Scan(sets, table, search, s, line, src, active, base, soFar);
      && (m.Halt? ==> r == Finish(s, soFar, active))
      && (m.Unnamed? ==> r == ScanResult([], [], soFar, Some(UnnamedMatch(soFar)), active))
      && (m.Take? && m.next.None? ==>
            r == ScanResult([], [m.step], m.step.span.end, Some(UnknownRuleset(m.switchTo.value)), active))
      && (m.Take? && m.next.Some? && Resolve(table, m.info.tokname).Unknown? ==>
            r == ScanResult([], [m.step], m.step.span.end,
                            Some(UnknownTokname(Resolve(table, m.info.tokname).name)), m.next.value))
      && (m.Take? && m.next.Some? && !Resolve(table, m.info.tokname).Unknown? ==>
            var rest := Scan(sets, table, search, s, line, src, m.next.value,
                             NextBase(m, active, base), m.step.span.end);
            && r.trace == [m.step] + rest.trace
            && r.tokens == MoveTokens(table, s, line, src, m) + rest.tokens
            && r.stop == rest.stop && r.error == rest.error && r.active == rest.active)
  {
  }

  /** What is left to yield, raise and activate, with `acc` already yielded. */
  datatype Pending = Pending(tokens: seq<Token>, error: Option<ScanError>, active: nat)

  function After(acc: seq<Token>, r: ScanResult): Pending
  {
    Pending(acc + r.tokens, r.error, r.active)
  }

  // The rounds of the loop of `string_to_tokens`, with `acc` already yielded.

  /** No match: the loop ends, with `Unmatched` unless the whole string was consumed. */
  lemma RoundHalts(sets: seq<RuleSet>, table: seq<string>, search: Search, s: string,
                                      line: Option<int>, src: Option<string>,
                                      active: nat, base: nat, soFar: nat, acc: seq<Token>)
    requires Ready(sets, search, active) && base <= soFar <= |s|
    requires NextMove(sets, search, s, active, base, soFar).Halt?
    ensures After(acc, Scan(sets, table, search, s, line, src, active, base, soFar))
         == Pending(acc, if soFar == |s| then None else Some(Unmatched(soFar)), active)
  {
  }

  /** A rule set without branches: its empty match has no group, so `pmap[None]` raises `KeyError`. */
  lemma RoundUnnamed(sets: seq<RuleSet>, table: seq<string>, search: Search, s: string,
                     line: Option<int>, src: Option<string>,
                     active: nat, base: nat, soFar: nat, acc: seq<Token>)
    requires Ready(sets, search, active) && base <= soFar <= |s|
    requires sets[active].branches == []
    ensures After(acc, Scan(sets, table, search, s, line, src, active, base, soFar))
         == Pending(acc, Some(UnnamedMatch(soFar)), active)
  {
  }

  /** A switch to a missing rule set: `KeyError`. */
  lemma RoundSwitchFails(sets: seq<RuleSet>, table: seq<string>, search: Search, s: string,
                                      line: Option<int>, src: Option<string>,
                                      active: nat, base: nat, soFar: nat, acc: seq<Token>)
    requires Ready(sets, search, active) && base <= soFar <= |s|
    requires var m := NextMove(sets, search, s, active, base, soFar); m.Take? && m.next.None?
    ensures var m := NextMove(sets, search, s, active, base, soFar);
      After(acc, Scan(sets, table, search, s, line, src, active, base, soFar)) == Pending(acc, Some(UnknownRuleset(m.switchTo.value)), active)
  {
  }

  /** A name missing from the ID table: `KeyError`, after the switch took effect. */
  lemma RoundNameUnknown(sets: seq<RuleSet>, table: seq<string>, search: Search, s: string,
                                      line: Option<int>, src: Option<string>,
                                      active: nat, base: nat, soFar: nat, acc: seq<Token>)
    requires Ready(sets, search, active) && base <= soFar <= |s|
    requires var m := NextMove(sets, search, s, active, base, soFar);
      m.Take? && m.next.Some? && Resolve(table, m.info.tokname).Unknown?
    ensures var m := NextMove(sets, search, s, active, base, soFar);
      After(acc, Scan(sets, table, search, s, line, src, active, base, soFar))
        == Pending(acc, Some(UnknownTokname(Resolve(table, m.info.tokname).name)), m.next.value)
  {
  }

  /** A match that does not fail: its token (if any) is yielded and the loop goes on after it. */
  lemma RoundGoesOn(sets: seq<RuleSet>, table: seq<string>, search: Search, s: string,
                    line: Option<int>, src: Option<string>,
                    active: nat, base: nat, soFar: nat, acc: seq<Token>)
    requires Ready(sets, search, active) && base <= soFar <= |s|
    requires var m := NextMove(sets, search, s, active, base, soFar);
      m.Take? && m.next.Some? && !Resolve(table, m.info.tokname).Unknown?
    ensures var m := NextMove(sets, search, s, active, base, soFar);
      After(acc, Scan(sets, table, search, s, line, src, active, base, soFar))
        == After(acc + MoveTokens(table, s, line, src, m),
                 Scan(sets, table, search, s, line, src, m.next.value,
                      NextBase(m, active, base), m.step.span.end))
  {
    var m := NextMove(sets, search, s, active, base, soFar);
    var rest := Scan(sets, table, search, s, line, src, m.next.value,
                     NextBase(m, active, base), m.step.span.end);
    var here := MoveTokens(table, s, line, src, m);
    assert acc + (here + rest.tokens) == (acc + here) + rest.tokens;
  }

  /** The tokens of a taken match are those its step yields on its own. */
  lemma MoveTokensAgree(sets: seq<RuleSet>, table: seq<string>, search: Search, s: string,
                        line: Option<int>, src: Option<string>,
                        active: nat, base: nat, soFar: nat)
    requires Ready(sets, search, active) && base <= soFar <= |s|
    requires NextMove(sets, search, s, active, base, soFar).Take?
    ensures var m := NextMove(sets, search, s, active, base, soFar);
      MoveTokens(table, s, line, src, m) == StepTokens(table, s, line, src, m.step)
  {
  }

  // ---------------------------------------------------------------------------
  // Reference definitions the scan is proved against

  /** The spans of `trace`, each non-empty, lie end to end from `from` to `to`. */
  ghost predicate Tiles(trace: seq<Step>, from: nat, to: nat)
    decreases |trace|
  {
    if trace == [] then from == to
    else trace[0].span.start == from < trace[0].span.end && Tiles(trace[1..], trace[0].span.end, to)
  }

  /** The texts of the spans of `trace`, concatenated. */
  function Pieces(s: string, trace: seq<Step>): string
  {
    if trace == [] then []
    else
      var sp := trace[0].span;
      (if sp.start <= sp.end <= |s| then s[sp.start..sp.end] else []) + Pieces(s, trace[1..])
  }

  /** The token one accepted match yields: one if its post-processed name resolves, else none. */
  function StepTokens(table: seq<string>, s: string, line: Option<int>, src: Option<string>,
                      step: Step): seq<Token>
  {
    var sp := step.span;
    var text := if sp.start <= sp.end <= |s| then s[sp.start..sp.end] else [];
    var out := Matched(step.rule, text);
    match Resolve(table, out.info.tokname)
    case Emit(id) => [Token(id, out.info.value, s, TokLoc(src, line, sp.start, sp.end))]
    case _ => []
  }

  /** The tokens a sequence of accepted matches yields, in order. */
  function Emitted(table: seq<string>, s: string, line: Option<int>, src: Option<string>,
                   trace: seq<Step>): seq<Token>
  {
    if trace == [] then []
    else StepTokens(table, s, line, src, trace[0]) + Emitted(table, s, line, src, trace[1..])
  }

  lemma {:induction false} EmittedCons(table: seq<string>, s: string, line: Option<int>, src: Option<string>,
                    step: Step, trace: seq<Step>)
    ensures Emitted(table, s, line, src, [step] + trace)
         == StepTokens(table, s, line, src, step) + Emitted(table, s, line, src, trace)
  {
    assert ([step] + trace)[1..] == trace;
  }

  /** The matches whose tokens were emitted: all but one whose rule switch failed. */
  ghost function Accepted(r: ScanResult): seq<Step>
  {
    if r.error.Some? && r.error.value.UnknownRuleset? && r.trace != [] then r.trace[..|r.trace| - 1]
    else r.trace
  }

  lemma {:induction false} AcceptedCons(r: ScanResult, rest: ScanResult, step: Step)
    requires r.trace == [step] + rest.trace && r.error == rest.error && FailsAtLast(rest)
    ensures Accepted(r) == [step] + Accepted(rest)
  {
    if r.error.Some? && r.error.value.UnknownRuleset? {
      assert r.trace[..|r.trace| - 1] == [step] + rest.trace[..|rest.trace| - 1];
    }
  }

  /** The active rule set after the rule-switch requests of `trace`, from `active`. */
  function ActiveAfter(sets: seq<RuleSet>, active: nat, trace: seq<Step>): nat
    requires active < |sets|
    decreases |trace|
  {
    if trace == [] then active
    else
      var a := trace[0].rule.action;
      var next := if a.RuleSwitch? then Switch(sets, active, a.newRulename) else Some(active);
      if next.None? then active else ActiveAfter(sets, next.value, trace[1..])
  }

  /** The error, if any, comes from the last step; a scan that fails consumed the rest. */
  ghost predicate FailsAtLast(r: ScanResult)
  {
    (r.error.Some? && (r.error.value.UnknownRuleset? || r.error.value.UnknownTokname?)) ==> r.trace != []
  }

  // ---------------------------------------------------------------------------
  // What the scan promises

  /**
   * Contiguity: the accepted matches tile `s[soFar..stop]`; a scan without
   * error consumed all of `s`; an unmatched error is reported at `stop`, short
   * of the end; an unknown rule set or token name fails on a match of the trace.
   */
  lemma {:induction false} ScanTiles(sets: seq<RuleSet>, table: seq<string>, search: Search, s: string,
                                     line: Option<int>, src: Option<string>,
                                     active: nat, base: nat, soFar: nat)
    requires Ready(sets, search, active)
    requires base <= soFar <= |s|
    ensures var r := Scan(sets, table, search, s, line, src, active, base, soFar);
      Tiles(r.trace, soFar, r.stop) && FailsAtLast(r) &&
      (r.error.None? ==> r.stop == |s|) &&
      (r.error.Some? && r.error.value.Unmatched? ==> r.error.value.at == r.stop < |s|)
    decreases |s| - soFar
  {
    var m := NextMove(sets, search, s, active, base, soFar);
    if m.Take? && m.next.Some? {
      ScanTiles(sets, table, search, s, line, src, m.next.value, NextBase(m, active, base), m.step.span.end);
    }
    ScanUnfold(sets, table, search, s, line, src, active, base, soFar);
  }

  /** Tiling spans reassemble the text they tile. */
  lemma {:induction false} TilesReassemble(s: string, trace: seq<Step>, from: nat, to: nat)
    requires Tiles(trace, from, to) && to <= |s|
    ensures from <= to && Pieces(s, trace) == s[from..to]
    decreases |trace|
  {
    if trace != [] {
      var sp := trace[0].span;
      TilesReassemble(s, trace[1..], sp.end, to);
      assert s[from..to] == s[from..sp.end] + s[sp.end..to];
    }
  }

  /** On success, the texts of all accepted matches, suppressed or not, are `s` itself. */
  lemma {:induction false} ScanRoundTrip(sets: seq<RuleSet>, table: seq<string>, search: Search, s: string,
                      line: Option<int>, src: Option<string>, active: nat)
    requires Ready(sets, search, active)
    ensures var r := Scan(sets, table, search, s, line, src, active, 0, 0);
      r.error.None? ==> Pieces(s, r.trace) == s
  {
    var r := Scan(sets, table, search, s, line, src, active, 0, 0);
    ScanTiles(sets, table, search, s, line, src, active, 0, 0);
    TilesReassemble(s, r.trace, 0, r.stop);
  }

  /**
   * The tokens are exactly those of the accepted matches whose post-processed
   * name resolves, in order (suppressed matches yield nothing); a match whose
   * rule switch fails yields nothing either.
   */
  lemma {:induction false} ScanEmits(sets: seq<RuleSet>, table: seq<string>, search: Search, s: string,
                                     line: Option<int>, src: Option<string>,
                                     active: nat, base: nat, soFar: nat)
    requires Ready(sets, search, active)
    requires base <= soFar <= |s|
    ensures var r := Scan(sets, table, search, s, line, src, active, base, soFar);
      r.tokens == Emitted(table, s, line, src, Accepted(r))
    decreases |s| - soFar
  {
    var m := NextMove(sets, search, s, active, base, soFar);
    var r := Scan(sets, table, search, s, line, src, active, base, soFar);
    if m.Take? && m.next.Some? {
      var sp := m.step.span;
      var base' := if m.next.value == active then base else sp.end;
      var rest := Scan(sets, table, search, s, line, src, m.next.value, base', sp.end);
      ScanEmits(sets, table, search, s, line, src, m.next.value, base', sp.end);
      ScanUnfold(sets, table, search, s, line, src, active, base, soFar);
      MoveTokensAgree(sets, table, search, s, line, src, active, base, soFar);
      if Resolve(table, m.info.tokname).Unknown? {
        assert Accepted(r) == [m.step];
        EmittedCons(table, s, line, src, m.step, []);
      } else {
        ScanTiles(sets, table, search, s, line, src, m.next.value, base', sp.end);
        EmitsCons(table, s, line, src, r, rest, m.step);
      }
    } else if m.Take? {
      assert Accepted(r) == [];
    }
  }

  /** A scan that yields one step's tokens before those of the rest emits what its accepted steps do. */
  lemma EmitsCons(table: seq<string>, s: string, line: Option<int>, src: Option<string>,
                  r: ScanResult, rest: ScanResult, step: Step)
    requires r.trace == [step] + rest.trace && r.error == rest.error && FailsAtLast(rest)
    requires r.tokens == StepTokens(table, s, line, src, step) + rest.tokens
    requires rest.tokens == Emitted(table, s, line, src, Accepted(rest))
    ensures r.tokens == Emitted(table, s, line, src, Accepted(r))
  {
    AcceptedCons(r, rest, step);
    EmittedCons(table, s, line, src, step, Accepted(rest));
  }

  /**
   * The rule set active after the scan is the one the rule-switch requests of
   * the accepted matches lead to (unless a request named an unknown rule set).
   */
  lemma {:induction false} ScanActive(sets: seq<RuleSet>, table: seq<string>, search: Search, s: string,
                                      line: Option<int>, src: Option<string>,
                                      active: nat, base: nat, soFar: nat)
    requires Ready(sets, search, active)
    requires base <= soFar <= |s|
    ensures var r := Scan(sets, table, search, s, line, src, active, base, soFar);
      !(r.error.Some? && r.error.value.UnknownRuleset?) ==>
        r.active == ActiveAfter(sets, active, r.trace)
    decreases |s| - soFar
  {
    var m := NextMove(sets, search, s, active, base, soFar);
    ScanUnfold(sets, table, search, s, line, src, active, base, soFar);
    if m.Take? && m.next.Some? {
      var r := Scan(sets, table, search, s, line, src, active, base, soFar);
      ScanActive(sets, table, search, s, line, src, m.next.value, NextBase(m, active, base), m.step.span.end);
      ActiveAfterTake(sets, search, s, active, base, soFar, r.trace);
      if !Resolve(table, m.info.tokname).Unknown? {
        assert r.trace[1..] == Scan(sets, table, search, s, line, src, m.next.value,
                                    NextBase(m, active, base), m.step.span.end).trace;
      } else {
        assert r.trace[1..] == [];
      }
    }
  }

  /** A trace that starts with a taken match goes on from the rule set that match selects. */
  lemma ActiveAfterTake(sets: seq<RuleSet>, search: Search, s: string,
                        active: nat, base: nat, soFar: nat, trace: seq<Step>)
    requires Ready(sets, search, active) && base <= soFar <= |s|
    requires var m := NextMove(sets, search, s, active, base, soFar);
      m.Take? && m.next.Some? && trace != [] && trace[0] == m.step
    ensures var m := NextMove(sets, search, s, active, base, soFar);
      ActiveAfter(sets, active, trace) == ActiveAfter(sets, m.next.value, trace[1..])
  {
    var m := NextMove(sets, search, s, active, base, soFar);
    MatchedMeaning(m.step.rule, s[soFar..m.step.span.end]);
  }

  // ---------------------------------------------------------------------------
  // Several strings: `tokens()`

  /** The outcome of tokenizing a sequence of strings. */
  datatype ScanAllResult = ScanAllResult(tokens: seq<Token>, error: Option<ScanError>, active: nat)

  /** The number of the `k`-th string when numbering starts at `startnum` (None: unnumbered). */
  function LineAt(startnum: Option<int>, k: nat): Option<int>
  {
    if startnum.None? then None else Some(startnum.value + k)
  }

  lemma {:induction false} LineAtShift(startnum: Option<int>, i: nat, j: nat)
    ensures LineAt(LineAt(startnum, i), j) == LineAt(startnum, i + j)
  {
  }

  /** The scan of one whole string, as a function of the string, its number and the active rule set. */
  type LineScanner = (string, Option<int>, nat) -> ScanResult

  /**
   * `tokens()` over any scanner of single strings: each string is scanned in
   * turn, numbered from `startnum`, the active rule set carried over from one
   * string to the next; the first error ends the whole run.
   */
  function RunLines(f: LineScanner, strings: seq<string>, startnum: Option<int>, active: nat): (r: ScanAllResult)
    ensures strings == [] ==> r == ScanAllResult([], None, active)
    decreases |strings|
  {
    if strings == [] then ScanAllResult([], None, active)
    else
      var one := f(strings[0], startnum, active);
      if one.error.Some? then ScanAllResult(one.tokens, one.error, one.active)
      else
        var rest := RunLines(f, strings[1..], LineAt(startnum, 1), one.active);
        ScanAllResult(one.tokens + rest.tokens, rest.error, rest.active)
  }

  /**
   * Mode persistence: running over `a + b` is running over `a`, then over `b`
   * from the rule set that was active at the end of `a`, with line numbers
   * continuing.
   */
  lemma {:induction false} RunLinesAppend(f: LineScanner, a: seq<string>, b: seq<string>,
                                          startnum: Option<int>, active: nat)
    ensures var ra := RunLines(f, a, startnum, active);
      var rab := RunLines(f, a + b, startnum, active);
      if ra.error.Some? then rab == ra
      else
        var rb := RunLines(f, b, LineAt(startnum, |a|), ra.active);
        rab == ScanAllResult(ra.tokens + rb.tokens, rb.error, rb.active)
    decreases |a|
  {
    if a == [] {
      assert a + b == b;
      assert LineAt(startnum, 0) == startnum;
    } else {
      var one := f(a[0], startnum, active);
      assert (a + b)[0] == a[0] && (a + b)[1..] == a[1..] + b;
      if one.error.None? {
        var l1 := LineAt(startnum, 1);
        var ra1 := RunLines(f, a[1..], l1, one.active);
        LineAtShift(startnum, 1, |a| - 1);
        RunLinesAppend(f, a[1..], b, l1, one.active);
        if ra1.error.None? {
          var rb := RunLines(f, b, LineAt(startnum, |a|), ra1.active);
          assert one.tokens + (ra1.tokens + rb.tokens) == (one.tokens + ra1.tokens) + rb.tokens;
        }
      }
    }
  }

  /**
   * With `acc` already emitted, the run over `strings[i..]` is the scan of
   * `strings[i]`, then (if it succeeds) the run over `strings[i + 1..]`.
   */
  lemma {:induction false} RunLinesStep(f: LineScanner, strings: seq<string>, i: nat,
                                        startnum: Option<int>, active: nat, acc: seq<Token>)
    requires i < |strings|
    ensures var one := f(strings[i], LineAt(startnum, i), active);
      var here := RunLines(f, strings[i..], LineAt(startnum, i), active);
      var next := RunLines(f, strings[i + 1..], LineAt(startnum, i + 1), one.active);
      ScanAllResult(acc + here.tokens, here.error, here.active)
        == if one.error.Some? then ScanAllResult(acc + one.tokens, one.error, one.active)
           else ScanAllResult((acc + one.tokens) + next.tokens, next.error, next.active)
  {
    assert strings[i..][0] == strings[i] && strings[i..][1..] == strings[i + 1..];
    LineAtShift(startnum, i, 1);
    var one := f(strings[i], LineAt(startnum, i), active);
    var next := RunLines(f, strings[i + 1..], LineAt(startnum, i + 1), one.active);
    assert acc + (one.tokens + next.tokens) == (acc + one.tokens) + next.tokens;
  }

  /**
   * The scanner of single strings that `tokens()` uses: `Scan` from the start
   * of the string. An active index out of range is never passed to it
   * (`ScanAllReady`); it then stops at once.
   */
  ghost function StringScanner(sets: seq<RuleSet>, table: seq<string>, search: Search, src: Option<string>): LineScanner
  {
    (s: string, line: Option<int>, act: nat) =>
      if Ready(sets, search, act) then Scan(sets, table, search, s, line, src, act, 0, 0)
      else Finish(s, 0, act)
  }

  /** `tokens()` of a tokenizer with rule sets `sets`, ID table `table` and regexp engine `search`. */
  ghost function ScanAll(sets: seq<RuleSet>, table: seq<string>, search: Search, strings: seq<string>,
                         startnum: Option<int>, src: Option<string>, active: nat): ScanAllResult
  {
    RunLines(StringScanner(sets, table, search, src), strings, startnum, active)
  }

  /** Mode persistence, for the tokenizer's own scanner. */
  lemma ScanAllAppend(sets: seq<RuleSet>, table: seq<string>, search: Search,
                      a: seq<string>, b: seq<string>,
                      startnum: Option<int>, src: Option<string>, active: nat)
    ensures var ra := ScanAll(sets, table, search, a, startnum, src, active);
      var rab := ScanAll(sets, table, search, a + b, startnum, src, active);
      if ra.error.Some? then rab == ra
      else
        var rb := ScanAll(sets, table, search, b, LineAt(startnum, |a|), src, ra.active);
        rab == ScanAllResult(ra.tokens + rb.tokens, rb.error, rb.active)
  {
    RunLinesAppend(StringScanner(sets, table, search, src), a, b, startnum, active);
  }

  /** The active rule set stays a valid index from one string to the next. */
  lemma {:induction false} ScanAllReady(sets: seq<RuleSet>, table: seq<string>, search: Search, strings: seq<string>,
                                        startnum: Option<int>, src: Option<string>, active: nat)
    requires Ready(sets, search, active)
    ensures ScanAll(sets, table, search, strings, startnum, src, active).active < |sets|
    decreases |strings|
  {
    if strings != [] {
      var one := StringScanner(sets, table, search, src)(strings[0], startnum, active);
      assert one == Scan(sets, table, search, strings[0], startnum, src, active, 0, 0);
      if one.error.None? {
        ScanAllReady(sets, table, search, strings[1..], LineAt(startnum, 1), src, one.active);
      }
    }
  }

  // ---------------------------------------------------------------------------
  // The Tokenizer object

  class Tokenizer {
    /** The normalised rule sets, in insertion order. */
    const entries: seq<Entry>
    /** `self.rulesets`, compiled from `entries`. */
    const rulesets: seq<RuleSet>
    /** `self.TokenID`, as the list of its names (member k has value k + 1). */
    const tokenIDs: seq<string>
    /** The position in `rulesets` of `self.rules`, the active rule set. */
    var active: nat

    /** The groups of every rule set resolve; the active rule set is one of them. */
    ghost predicate Valid()
      reads this
    {
      WellCompiled(rulesets) && DistinctNames(rulesets) && active < |rulesets|
    }

    /** `__init__` on a normalised specification; the ID table is given or generated. */
    constructor (es: seq<Entry>, table: seq<string>)
      requires Default in Keys(es) && DistinctKeys(es)
      ensures Valid()
      ensures entries == es && rulesets == CompileAll(es) && tokenIDs == table
      ensures rulesets[active].name == Default
    {
      CompileAllReady(es);
      CompileAllNames(es);
      entries := es;
      rulesets := CompileAll(es);
      tokenIDs := table;
      active := Find(CompileAll(es), Default).value;
    }

    /**
     * `activate_ruleset(newrule)`; false where `self.rulesets[newrule]`
     * raises `KeyError`, which leaves the active rule set as it was.
     * ("_next" looks up the position of `self.rules.name` among the keys; the
     * keys being distinct, that is `active` itself, as `SwitchIsActivate` shows.)
     */
    method ActivateRuleset(newrule: SetName) returns (ok: bool)
      requires Valid()
      modifies this
      ensures Valid()
      ensures var r := Switch(rulesets, old(active), newrule);
        ok == r.Some? && active == (if ok then r.value else old(active))
      ensures var a := Activate(Names(rulesets), rulesets[old(active)].name, newrule);
        ok == a.Some? && (ok ==> rulesets[active].name == a.value)
    {
      ghost var sw := Switch(rulesets, active, newrule);
      SwitchIsActivate(rulesets, active, newrule);
      if newrule == NextSet {
        active := (active + 1) % |rulesets|;
        ok := true;
      } else {
        var found := Find(rulesets, newrule);
        if found.Some? {
          active := found.value;
          ok := true;
        } else {
          ok := false;
        }
      }
      assert ok == sw.Some? && active == (if ok then sw.value else old(active));
    }

    /**
     * The rest of one round of `string_to_tokens` once `m` matched: `matched`
     * runs (switching the rule set for a rule-switch rule, `KeyError` if the
     * target is missing), then the post-processed name is looked up.
     */
    method Consume(s: string, line: Option<int>, src: Option<string>, m: Move)
      returns (toks: seq<Token>, err: Option<ScanError>)
      requires Valid() && m.Take?
      requires m.next == if m.switchTo.Some? then Switch(rulesets, active, m.switchTo.value) else Some(active)
      modifies this
      ensures Valid()
      ensures m.next.None? ==> err == Some(UnknownRuleset(m.switchTo.value)) && active == old(active)
      ensures m.next.Some? ==> active == m.next.value
      ensures m.next.Some? && Resolve(tokenIDs, m.info.tokname).Unknown? ==>
                err == Some(UnknownTokname(Resolve(tokenIDs, m.info.tokname).name))
      ensures m.next.Some? && !Resolve(tokenIDs, m.info.tokname).Unknown? ==>
                err.None? && toks == MoveTokens(tokenIDs, s, line, src, m)
    {
      toks := [];
      err := None;
      if m.switchTo.Some? {
        var ok := ActivateRuleset(m.switchTo.value);
        if !ok {
          err := Some(UnknownRuleset(m.switchTo.value));
          return;
        }
      }
      match Resolve(tokenIDs, m.info.tokname) {
        case Unknown(n) =>
          err := Some(UnknownTokname(n));
        case Skip =>
        case Emit(id) =>
          toks := [Token(id, m.info.value, s, TokLoc(src, line, m.step.span.start, m.step.span.end))];
      }
    }

    /**
     * `string_to_tokens(s, linenumber=line, name=src)`: the tokens it yields
     * and the error it raises, if any; the active rule set is left where the
     * rule switches of the scan took it.
     */
    method StringToTokens(s: string, line: Option<int>, src: Option<string>, search: Search)
      returns (toks: seq<Token>, err: Option<ScanError>)
      requires Valid() && WellFormedSearch(search)
      modifies this
      ensures Valid()
      ensures var r := Scan(rulesets, tokenIDs, search, s, line, src, old(active), 0, 0);
        Pending(toks, err, active) == Pending(r.tokens, r.error, r.active)
    {
      ghost var r0 := Scan(rulesets, tokenIDs, search, s, line, src, active, 0, 0);
      ghost var total := After([], r0);
      assert [] + r0.tokens == r0.tokens;
      var soFar: nat := 0;
      var prevrules: Option<nat> := None;
      var base: nat := 0;
      toks := [];
      while true
        invariant Valid() && base <= soFar <= |s|
        invariant prevrules.None? ==> soFar == 0 && toks == [] && active == old(active)
        invariant After(toks, Scan(rulesets, tokenIDs, search, s, line, src, active,
                                   if prevrules == Some(active) then base else soFar, soFar)) == total
        decreases |s| - soFar
      {
        if prevrules != Some(active) {
          prevrules := Some(active);
          base := soFar;
        }
        var m := NextMove(rulesets, search, s, active, base, soFar);
        ghost var before := active;
        var start := soFar;
        if m.Halt? {
          RoundHalts(rulesets, tokenIDs, search, s, line, src, before, base, start, toks);
          break;
        }
        if m.Unnamed? {
          RoundUnnamed(rulesets, tokenIDs, search, s, line, src, before, base, start, toks);
          err := Some(UnnamedMatch(soFar));
          return;
        }
        soFar := m.step.span.end;
        var more, e := Consume(s, line, src, m);
        if e.Some? {
          if m.next.None? {
            RoundSwitchFails(rulesets, tokenIDs, search, s, line, src, before, base, start, toks);
          } else {
            RoundNameUnknown(rulesets, tokenIDs, search, s, line, src, before, base, start, toks);
          }
          err := e;
          return;
        }
        RoundGoesOn(rulesets, tokenIDs, search, s, line, src, before, base, start, toks);
        toks := toks + more;
        assert prevrules == Some(before) && NextBase(m, before, base) == if active == before then base else soFar;
      }
      err := if soFar == |s| then None else Some(Unmatched(soFar));
    }

    /**
     * `tokens(strings, srcname=src, startnum=startnum)`: the tokens of every
     * string in turn, up to the first error.
     */
    method Tokens(strings: seq<string>, startnum: Option<int>, src: Option<string>, search: Search)
      returns (toks: seq<Token>, err: Option<ScanError>)
      requires Valid() && WellFormedSearch(search)
      modifies this
      ensures Valid()
      ensures ScanAllResult(toks, err, active)
           == ScanAll(rulesets, tokenIDs, search, strings, startnum, src, old(active))
    {
      ghost var f := StringScanner(rulesets, tokenIDs, search, src);
      ghost var total := RunLines(f, strings, startnum, active);
      toks, err := [], None;
      var i := 0;
      while i < |strings|
        invariant Valid() && i <= |strings|
        invariant var rest := RunLines(f, strings[i..], LineAt(startnum, i), active);
          ScanAllResult(toks + rest.tokens, rest.error, rest.active) == total
      {
        RunLinesStep(f, strings, i, startnum, active, toks);
        ghost var one := Scan(rulesets, tokenIDs, search, strings[i], LineAt(startnum, i), src, active, 0, 0);
        ghost var next := RunLines(f, strings[i + 1..], LineAt(startnum, i + 1), one.active);
        assert f(strings[i], LineAt(startnum, i), active) == one;
        var more, e := StringToTokens(strings[i], LineAt(startnum, i), src, search);
        assert more == one.tokens && e == one.error && active == one.active;
        toks := toks + more;
        if e.Some? {
          err := e;
          assert ScanAllResult(toks, err, active) == total;
          return;
        }
        assert ScanAllResult(toks + next.tokens, next.error, next.active) == total;
        i := i + 1;
      }
      assert strings[i..] == [];
    }
  }

  /**
   * `Tokenizer(tms, tokenIDs=ids)`: normalisation errors are raised before
   * anything is built; afterwards the default rule set is active.
   */
  method NewTokenizer(spec: Spec, ids: Option<seq<string>>) returns (r: Result<Tokenizer, ConfigError>)
    requires WellKeyed(spec)
    ensures r.Err? <==> Normalise(spec).Err?
    ensures r.Err? ==> r.error == Normalise(spec).error
    ensures r.Ok? ==> fresh(r.value) && r.value.Valid() && r.value.rulesets[r.value.active].name == Default
    ensures r.Ok? ==> r.value.entries == Normalise(spec).value
    ensures r.Ok? ==> r.value.rulesets == CompileAll(r.value.entries)
    ensures r.Ok? ==> r.value.tokenIDs == if ids.Some? then ids.value else TokenTable(Normalise(spec).value)
  {
    match Normalise(spec)
    case Err(e) => r := Err(e);
    case Ok(es) =>
      var t := new Tokenizer(es, if ids.Some? then ids.value else TokenTable(es));
      r := Ok(t);
  }
}
