/**
 * Rule descriptors of the tokenizer (the TokenMatch family) and their
 * post-processing step `matched`.
 */
module Rules {
  import opened Wrappers

  /** The key of a rule set: the distinguished default key (Python `None`) or a name. */
  datatype SetName = Default | Named(name: string)

  /** The switch target that means "the next rule set, in insertion order". */
  const NextSet: SetName := Named("_next")

  /** A token payload: the matched text, or what a converter made of it. */
  datatype Value = Text(text: string) | Num(num: int)

  /** The post-processing behaviour of a rule, one variant per TokenMatch class. */
  datatype Action =
    | Keep                                   // TokenMatch, TokenMatchKeyword
    | Ignore                                 // TokenMatchIgnore
    | Convert(converter: string -> Value)    // TokenMatchConvert, TokenMatchInt
    | IgnoreButKeep(keep: string)            // TokenMatchIgnoreButKeep
    | RuleSwitch(newRulename: SetName)       // TokenMatchRuleSwitch

  /** A rule: its token name, its regexp (absent for a sentinel rule) and its action. */
  datatype Rule = Rule(tokname: string, regexp: Option<string>, action: Action)

  /** What `matched` hands back: a token name (None = suppress) and a value. */
  datatype MatchedInfo = MatchedInfo(tokname: Option<string>, value: Value)

  /**
   * The result of post-processing one match: the new info, and the rule set
   * that `activate_ruleset` is asked to select (RuleSwitch only).
   */
  datatype Outcome = Outcome(info: MatchedInfo, switchTo: Option<SetName>)

  /** `s` contains `sub` as a contiguous substring (Python's `sub in s`). */
  predicate Contains(s: string, sub: string)
    decreases |s|
  {
    sub <= s || (s != [] && Contains(s[1..], sub))
  }

  /**
   * `rule.matched(_MatchedInfo(rule.tokname, text, ...))`. The tokenizer calls
   * this on every match and builds the token (or not) from what comes back;
   * `MatchedMeaning` states what each action does.
   */
  function Matched(rule: Rule, text: string): Outcome
  {
    var info := MatchedInfo(Some(rule.tokname), Text(text));
    match rule.action
    case Keep => Outcome(info, None)
    case Ignore => Outcome(info.(tokname := None), None)
    case Convert(f) => Outcome(info.(value := f(text)), None)
    case IgnoreButKeep(keep) =>
      if Contains(text, keep) then Outcome(info.(value := Text(keep)), None)
      else Outcome(info.(tokname := None), None)
    case RuleSwitch(target) => Outcome(info, Some(target))
  }

  lemma MatchedMeaning(rule: Rule, text: string)
    ensures var r := Matched(rule, text);
      // suppression happens exactly for Ignore, and for IgnoreButKeep without `keep`
      && (r.info.tokname.None? <==>
            (rule.action.Ignore? ||
             (rule.action.IgnoreButKeep? && !Contains(text, rule.action.keep))))
      // no built-in action renames a token
      && (r.info.tokname.Some? ==> r.info.tokname.value == rule.tokname)
      // only a rule-switch rule asks for a new rule set, and it asks for its own target
      && (r.switchTo.Some? <==> rule.action.RuleSwitch?)
      && (rule.action.RuleSwitch? ==> r.switchTo.value == rule.action.newRulename)
      // values: unchanged, converted, or replaced by `keep`
      && ((rule.action.Keep? || rule.action.RuleSwitch? || rule.action.Ignore?) ==>
            r.info.value == Text(text))
      && (rule.action.Convert? ==> r.info.value == rule.action.converter(text))
      && (r.info.tokname.Some? && rule.action.IgnoreButKeep? ==> r.info.value == Text(rule.action.keep))
  {
  }

  /** ASCII upper-casing of one character. */
  function UpperChar(c: char): char
  {
    if 'a' <= c <= 'z' then (c as int - 'a' as int + 'A' as int) as char else c
  }

  /** `str.upper()`, restricted to ASCII letters. */
  function Upper(s: string): (r: string)
    ensures |r| == |s|
    ensures forall i :: 0 <= i < |s| ==> r[i] == UpperChar(s[i])
    ensures forall i :: 0 <= i < |r| ==> !('a' <= r[i] <= 'z')
  {
    if s == [] then [] else [UpperChar(s[0])] + Upper(s[1..])
  }

  /** The default keyword regexp: the keyword itself, not followed by an identifier character. */
  function KeywordRegexp(tokname: string): string
  {
    "(" + tokname + ")" + "(?![a-zA-Z0-9_])"
  }

  /**
   * `TokenMatchKeyword(tokname, regexp)`: the token name is upper-cased, and the
   * regexp defaults to the keyword regexp of the name as written.
   */
  function KeywordRule(tokname: string, regexp: Option<string>): (r: Rule)
    ensures r.tokname == Upper(tokname) && r.action == Keep
    ensures regexp.None? ==> r.regexp == Some(KeywordRegexp(tokname))
    ensures regexp.Some? ==> r.regexp == regexp
  {
    Rule(Upper(tokname), Some(if regexp.None? then KeywordRegexp(tokname) else regexp.value), Keep)
  }

  /**
   * Whatever text a keyword rule matches becomes a token named with the
   * upper-cased keyword, carrying the matched text, with no rule-set switch;
   * the name has no lower-case letter left.
   */
  lemma KeywordRuleMatches(tokname: string, regexp: Option<string>, text: string)
    ensures var o := Matched(KeywordRule(tokname, regexp), text);
      && o.info.tokname == Some(Upper(tokname))
      && o.info.value == Text(text)
      && o.switchTo.None?
      && forall i :: 0 <= i < |o.info.tokname.value| ==> !('a' <= o.info.tokname.value[i] <= 'z')
  {
  }
}
