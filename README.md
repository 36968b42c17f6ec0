# A verified model of a rule-driven line tokenizer and a token-stream enhancer

This project models two independent components of a small Python tokenizing
library in Dafny, and proves properties about them.

- **The Tokenizer** (`tokenizer.py`). It does the following:
  - A rule specification is normalised into named rule sets.
  - Every rule set is compiled into one alternation of named branches (`PN0000`, `PN0001`, ...).
  - A table of token IDs is built from all token names.
  - Each string is scanned from left to right. Each match of the active rule set must start where the previous one ended.
  - Each match is post-processed by the rule that made it. The rule may keep, convert, suppress or replace the value, or switch the active rule set.
  - The whole input must be consumed.
  - `activate_ruleset("_next")` cycles through the rule sets in insertion order.
  - `linefilter` joins backslash-newline continuation lines. It can emit `"\n"` make-up lines so the line count stays the same.
- **The TokStreamEnhancer** (`tokutil.py`). It puts a pushback and lookahead buffer over a concatenation of token sources. It has these features:
  - an optional last token and an optional end-of-file token, which is repeated forever;
  - peeking, getting, and pushing back single items or lists;
  - nested marks (`tokmark`). An unaccepted mark gives back everything gotten inside it when it closes. An accepted mark passes what it has gotten to the enclosing mark.

Modules, one per file:

- `wrappers.dfy`: `Option` and `Result`.
- `rules.dfy`: rules, their actions and `matched`, and keyword rules.
- `tokenids.dfy`: the sorted token-ID table.
- `rulesets.dfy`: normalisation, `PNnnnn` names, compilation, the alternation match, and `activate_ruleset`.
- `scanner.dfy`: the scan as a specification function, and the `Tokenizer` class whose methods are proved against it.
- `linefilter.dfy`: `linefilter`, as written and as documented.
- `tokstream.dfy`: the `TokStream` class and its stream and frame functions.

The regex engine is a parameter `search(rx, t, pos)`. It returns the earliest match of one branch regexp in `t` at or after `pos`. Alternation is defined on top of it: the earliest start wins, and a tie goes to the lowest branch. `WellFormedSearch` states its assumptions:

- matches are non-empty;
- matches lie inside the text;
- a match starts at or after `pos`.

User converters are opaque functions `string -> Value`.

The central TokStream invariant is `Sound`. For every open frame that no pushback or iterator step has disturbed since it opened, two things are equal:

- the logs of that frame and of all frames inside it, followed by the stream still to come;
- the stream as it was when the frame opened, plus any end-of-file tokens made explicit since.

`Unwind` and `ExitMark` read the restoration property directly off this invariant.

Where the documentation and the code disagree, the model follows the code:

- **Keyword rules.** The `TokenMatchKeyword` docstring shows the regexp `(if)[^a-zA-Z_0-9]*`. The code builds `(if)(?![a-zA-Z0-9_])`, and `KeywordRegexp` is that.
- **Make-up lines.** The `linefilter` docstring says make-up lines come after the combined line. The code emits them before it. See Findings.

## Model

| member | source | states |
|---|---|---|
| Rules.MatchedMeaning | tokenizer.py:49-123 | A match's token name is suppressed exactly for `TokenMatchIgnore`, and for `TokenMatchIgnoreButKeep` when `keep` does not occur in the text. No action renames a token. Only a rule-switch rule asks for a new rule set, and it asks for its own target. The value is kept, is converted by the converter, or is replaced by `keep`. |
| Rules.Upper | tokenizer.py:97 | `tokname.upper()` restricted to ASCII: same length, each character upper-cased, no lower-case letter left. |
| Rules.KeywordRule | tokenizer.py:94-101 | The keyword's name is upper-cased and the match is kept. The regexp is the one given, or else the keyword as written, in a group, followed by the negative lookahead `(?![a-zA-Z0-9_])`. |
| Rules.KeywordRuleMatches | tokenizer.py:94-97 | Any text a keyword rule matches becomes a token named with the upper-cased keyword. The token carries the text unchanged and switches no rule set. The name has no lower-case letter left. |
| TokenIds.LessTransitive | tokenizer.py:236 | Python's string order is transitive. |
| TokenIds.LessTotal | tokenizer.py:236 | Of two distinct strings, one is less than the other. |
| TokenIds.LessIrreflexive | tokenizer.py:236 | No string is less than itself. |
| TokenIds.LessAsymmetric | tokenizer.py:236 | If `a < b`, then not `b < a`. |
| TokenIds.Insert | tokenizer.py:235-236 | Adding a name to a strictly sorted table keeps it strictly sorted, with exactly the old names plus the new one. |
| TokenIds.InsertAll | tokenizer.py:235-236 | Adding a list of names keeps the table strictly sorted, with exactly the old names plus the listed ones. |
| TokenIds.Table | tokenizer.py:232-236 | The table is strictly sorted (so it has no duplicates) and contains exactly the given names. |
| TokenIds.FirstIsLeast | tokenizer.py:236 | The first entry of a sorted table is its least element. |
| TokenIds.SortedUnique | tokenizer.py:236 | Two strictly sorted tables with the same elements are equal, so `sorted(set(...))` is determined by the set of names. |
| TokenIds.TableOrderIndependent | tokenizer.py:233-236 | The table depends only on which names occur, not on their order or how often each is repeated. |
| TokenIds.LookupId | tokenizer.py:351 | `TokenID[name]` is the name's 1-based position in the table. It is absent exactly when the name is not in the table. |
| TokenIds.IdsFollowOrder | tokenizer.py:236 | IDs increase with the string order of the names. |
| RuleSets.Keys | tokenizer.py:193 | The keys of the mapping, in insertion order. |
| RuleSets.Normalise | tokenizer.py:208-225 | A bare rule list becomes `{None: rules}` and a mapping is kept. A mapping without the `None` key fails with `NoDefault`. A zero-length rule set fails with `ZeroLengthRuleset`, each in exactly those cases. A success has the default key and no empty rule set. |
| RuleSets.AllToknames | tokenizer.py:235 | Exactly the token names of all rules of all rule sets. |
| RuleSets.RuleNames | tokenizer.py:235 | The token names of one rule set, position by position. |
| RuleSets.TokenTable | tokenizer.py:228-236 | `create_tokenID_enum`: strictly sorted, and containing exactly the token names of all rule sets. |
| RuleSets.DecimalRoundTrip | tokenizer.py:194 | Decimal digits parse back to the number. |
| RuleSets.LeadingZerosIgnored | tokenizer.py:194 | Zero padding does not change the parsed number. |
| RuleSets.PNameRoundTrip | tokenizer.py:194 | `PN{i:04d}` parses back to `i`. |
| RuleSets.PNameInjective | tokenizer.py:194 | Distinct rule indexes get distinct group names. |
| RuleSets.PNameWidth | tokenizer.py:194 | Below 10000, a group name is `PN` followed by exactly four digits. |
| RuleSets.PMap | tokenizer.py:194 | Rule `i` is stored under `PN{i:04d}` and nothing else is stored. Rules without a regexp are stored too. |
| RuleSets.BranchesSound | tokenizer.py:195-197 | Every alternation branch names a rule that has a regexp, and carries that regexp. |
| RuleSets.BranchesOrdered | tokenizer.py:195-197 | Branches appear in declaration order. |
| RuleSets.BranchesComplete | tokenizer.py:195-197 | Every rule with a regexp has a branch. |
| RuleSets.Compile | tokenizer.py:193-198 | A compiled rule set keeps its name, and each branch's group name leads in `pmap` to a rule with the branch's regexp. |
| RuleSets.AlternationFrom | tokenizer.py:364-372 | A hit is a branch that really matches at the reported span. |
| RuleSets.AlternationFromNone | tokenizer.py:367-370 | Over the branches it is given, the alternation finds nothing exactly when no branch matches. A rule set with no branches never gets here: `Scanner.NextMove` reports its empty pattern instead. |
| RuleSets.AlternationFromFirst | tokenizer.py:364-372 | The reported match starts no later than any branch's match, and on a tie it is from an earlier or the same branch. |
| RuleSets.TieGoesToEarlierRule | tokenizer.py:195-197 | When two branches match at the same start, the later one is never reported. |
| RuleSets.IndexOf | tokenizer.py:241 | `list.index`: the first position holding the name. |
| RuleSets.NextName | tokenizer.py:240-243 | The next rule set is one of the rule sets. |
| RuleSets.Activate | tokenizer.py:238-245 | `"_next"` selects the next rule set. Any other name selects that rule set if it exists, and otherwise fails. |
| RuleSets.NextN | tokenizer.py:238-243 | `k` successive `"_next"` switches stay among the rule sets. |
| RuleSets.IndexOfDistinct | tokenizer.py:241 | Among distinct names, `index` inverts indexing. |
| RuleSets.NextNameIndex | tokenizer.py:240-243 | `"_next"` moves from position `i` to position `(i+1) mod n`. |
| RuleSets.NextNIndex | tokenizer.py:240-243 | For `k <= n`, `k` switches move `k` positions forward, wrapping at the end. |
| RuleSets.NextWrapsAround | tokenizer.py:238-243 | `n` switches return to the starting rule set. |
| Scanner.Names | tokenizer.py:240 | `list(self.rulesets)`: the rule-set names in insertion order. |
| Scanner.Find | tokenizer.py:245 | `self.rulesets[name]`: the position of a rule set with that name, or absent exactly when none has it. |
| Scanner.Switch | tokenizer.py:238-245 | The index-level switch stays among the rule sets. |
| Scanner.NamesDistinct | tokenizer.py:192-198 | Distinct dictionary keys give distinct rule-set names. |
| Scanner.SwitchNamedIsActivate | tokenizer.py:244-245 | For a name other than `"_next"`, the index-level switch agrees with `Activate`. |
| Scanner.SwitchIsActivate | tokenizer.py:238-245 | The index-level switch agrees with `Activate` on every name. |
| Scanner.CompileAll | tokenizer.py:192-198 | One compiled rule set per entry, with the entry's name. |
| Scanner.CompileAllAt | tokenizer.py:193-198 | Entry `i` is compiled by `Compile`. |
| Scanner.CompileAllWellCompiled | tokenizer.py:193-198 | Every compiled branch resolves through `pmap` to a rule with that regexp. |
| Scanner.CompileAllNames | tokenizer.py:192-198 | Distinct keys give distinct compiled names. |
| Scanner.CompileAllDefault | tokenizer.py:201 | The default rule set exists after compilation. |
| Scanner.CompileAllReady | tokenizer.py:192-201 | The compiled rule sets are well formed and contain the default one. |
| Scanner.Resolve | tokenizer.py:350-357 | A suppressed name is skipped. A name missing from the ID table is an `unknown tokname` error. Otherwise the name's ID is used. |
| Scanner.NextMove | tokenizer.py:334-370 | The round is `Unnamed` exactly when the active rule set has no branches. Its joined regexp is then `''`, which matches at once in no group. An accepted match starts exactly at `so_far` and is non-empty. Its post-processing is `matched` of its rule on the matched text. The next rule set is the switch target, or the current one. |
| Scanner.NextMoveFirstMatch | tokenizer.py:334-372 | A round halts exactly when the rule set has branches but none matches right at `so_far`. Otherwise it takes the match of the first-declared branch that matches there (the `lastgroup` of the alternation in declaration order), with that branch's span, and credits the rule `pmap` holds under that branch's group name. |
| Scanner.Scan | tokenizer.py:327-362 | The scan stops between `so_far` and the end of the string, with a valid active rule set. |
| Scanner.ScanUnfold | tokenizer.py:332-357 | One round of the loop: it halts, fails on an empty pattern, fails on an unknown rule set, fails on an unknown token name, or emits and continues. |
| Scanner.RoundUnnamed | tokenizer.py:367-370 | In a rule set with no regexp-bearing rule, the scan fails at once with the `KeyError` of `pmap[None]`, at `so_far`, yielding nothing more. This holds even for the empty string. |
| Scanner.RoundHalts | tokenizer.py:339-342 | With no adjacent match, the scan ends. It succeeds exactly when the whole string is consumed, and otherwise reports `unmatched` at `so_far`. |
| Scanner.RoundSwitchFails | tokenizer.py:121-122 | A switch to an unknown rule set ends the scan with that error. |
| Scanner.RoundNameUnknown | tokenizer.py:350-354 | An unknown token name ends the scan with that error, after the rule set has switched. |
| Scanner.RoundGoesOn | tokenizer.py:343-357 | Otherwise the match's tokens are emitted and the scan goes on from its end, with the new rule set. |
| Scanner.ScanTiles | tokenizer.py:339-362 | The accepted matches tile the string from `so_far` to where the scan stopped. Success means the whole string was consumed. `unmatched` is reported at the stop position. |
| Scanner.TilesReassemble | tokenizer.py:339-343 | Tiling spans concatenate to exactly the covered text. |
| Scanner.ScanRoundTrip | tokenizer.py:339-362 | On success, the matched texts concatenate back to the string. |
| Scanner.EmittedCons | tokenizer.py:350-357 | The tokens of a sequence of matches are those of the first match followed by those of the rest. |
| Scanner.AcceptedCons | tokenizer.py:350-357 | A match that does not fail joins the accepted matches. |
| Scanner.ScanEmits | tokenizer.py:345-357 | The emitted tokens are exactly those of the accepted matches: suppressed ones give none, the others one token each. Each token has its span and the ID and value from post-processing. |
| Scanner.ScanActive | tokenizer.py:332-337 | The rule set active at the end is the one the accepted matches' switches lead to. |
| Scanner.LineAtShift | tokenizer.py:312-315 | Line numbering by `enumerate(start=startnum)` composes, and stays absent when `startnum` is None. |
| Scanner.RunLines | tokenizer.py:316-318 | No strings give no tokens and leave the rule set unchanged. |
| Scanner.RunLinesAppend | tokenizer.py:316-318 | Scanning `a + b` is scanning `a`, then scanning `b` with the next line numbers and with the rule set `a` left active. A failure in `a` stops it. |
| Scanner.RunLinesStep | tokenizer.py:316-318 | Scanning from string `i` is scanning string `i`, then the rest. |
| Scanner.ScanAllAppend | tokenizer.py:299-318 | The active rule set persists across strings: tokens over `a + b` continue from where `a` ended. |
| Scanner.ScanAllReady | tokenizer.py:316-318 | The active rule set stays valid across any number of strings. |
| Scanner.Tokenizer.constructor | tokenizer.py:182-201 | The rule sets are compiled from the entries, the ID table is installed, and the default rule set is active. |
| Scanner.Tokenizer.ActivateRuleset | tokenizer.py:238-245 | It switches the active rule set as `Switch` says, and fails without change on an unknown name. By name, it agrees with `RuleSets.Activate` on the keys, `_next` included. |
| Scanner.Tokenizer.Consume | tokenizer.py:343-357 | One accepted match. It switches the rule set, then fails on an unknown rule set or an unknown token name, or yields the match's tokens. |
| Scanner.Tokenizer.StringToTokens | tokenizer.py:320-362 | The loop over `so_far`, `prevrules` and `baseoffset` yields the tokens and the error of `Scan` from the active rule set, and leaves the rule set `Scan` ends with. |
| Scanner.Tokenizer.Tokens | tokenizer.py:299-318 | Tokenizing a list of strings is `ScanAll` from the active rule set, with `enumerate` line numbers. |
| Scanner.NewTokenizer | tokenizer.py:146-205 | Construction fails exactly when normalisation fails, with its error. Otherwise the tokenizer holds the normalised entries compiled, the given ID table or else the computed one, and the default rule set active. |
| LineFilter.TrailingRun | tokenizer.py:275-280 | The backslash run before a position is no longer than the prefix. |
| LineFilter.TrailingRunMeaning | tokenizer.py:275-280 | The run consists of backslashes and is not preceded by one. |
| LineFilter.Escaped | tokenizer.py:273-282 | The backward loop says a line is a continuation exactly when it ends in backslash-newline and the backslash run before the newline is odd. |
| LineFilter.Strip | tokenizer.py:284 | A continuation loses its last two characters. |
| LineFilter.Makeup | tokenizer.py:285-286 | One make-up line per continuation, and none without line-count preservation. |
| LineFilter.MakeupAdd | tokenizer.py:285-286 | Make-up lines add up. |
| LineFilter.FlattenAppend | tokenizer.py:288-291 | The text of concatenated outputs is the concatenated text. |
| LineFilter.FlattenMakeup | tokenizer.py:285-286 | Without line-count preservation, there is no make-up text. |
| LineFilter.WrittenCons | tokenizer.py:269-289 | One loop iteration as written: pending make-ups, then either joining or yielding `prev + s`. |
| LineFilter.WrittenEnd | tokenizer.py:290-292 | After the loop: the unfinished joined line, if any, then the pending make-up lines. |
| LineFilter.LineFilter | tokenizer.py:260-292 | The generator's loop yields exactly `AsWritten`. |
| LineFilter.WrittenGroup | tokenizer.py:269-292 | As written, a run of continuations followed by a line yields its make-up lines first, then the joined line. |
| LineFilter.WrittenCount | tokenizer.py:263-265 | As written, with line-count preservation, the output has one line per input line, plus one when make-up lines are pending at the start, when the last input line is not a continuation. |
| LineFilter.LineCountPreserved | tokenizer.py:263-265 | When the last line is not a continuation, both the as-written and the corrected filter yield as many lines as they read. |
| LineFilter.WrittenText | tokenizer.py:283-291 | Without preservation, the output text is the input text with every continuation's backslash-newline removed. |
| LineFilter.TextWithoutMakeups | tokenizer.py:283-291 | Without preservation, the output text is the joined input, and the as-written and corrected filters agree. |
| LineFilter.WrittenAgrees | tokenizer.py:283-292 | Without make-up lines, the order question does not arise. |
| LineFilter.MakeupBeforeJoinedLine | tokenizer.py:263-292 | The code yields `["\n", "ab\n"]` for `["a\\\n", "b\n"]`, where the docstring's order gives `["ab\n", "\n"]`. |
| LineFilter.LineFilterCorrected | tokenizer.py:263-265 | A filter that yields make-up lines after the combined line yields `Intended`. |
| LineFilter.IntendedCons | tokenizer.py:263-289 | One iteration of the corrected filter. |
| LineFilter.IntendedEnd | tokenizer.py:290-292 | The end of the corrected filter. |
| LineFilter.IntendedGroup | tokenizer.py:263-265 | Corrected, the joined line comes first, followed by all its make-up lines. |
| LineFilter.IntendedCount | tokenizer.py:263-265 | Corrected, with preservation, the output has one line per input line plus the pending make-up lines, when the last input line is not a continuation. |
| TokStreams.Pad | tokutil.py:44-46 | The padding is `n` end-of-file tokens, or nothing without one. |
| TokStreams.PadAt | tokutil.py:104 | Every padding item is the end-of-file token. |
| TokStreams.PadAdd | tokutil.py:104 | Paddings add up. |
| TokStreams.WindowWithoutEof | tokutil.py:98-103 | Without `eoftok`, peeking `n` fails exactly past the end, and otherwise gives the first `n` items. |
| TokStreams.WindowWithEof | tokutil.py:98-106 | With `eoftok`, peeking never fails, and every position past the end holds `eoftok`. |
| TokStreams.HeadIsWindowOne | tokutil.py:108-110 | `peektok()` is `peektoks(1)[0]`. |
| TokStreams.WindowPrefix | tokutil.py:95-106 | A shorter peek is a prefix of a longer one. |
| TokStreams.WindowPad | tokutil.py:104-105 | Explicit end-of-file tokens at the end change no peek. |
| TokStreams.WindowExtend | tokutil.py:95-106 | Peeking consumes nothing: any later peek returns what it would have returned before. |
| TokStreams.ExtendHolds | tokutil.py:98-106 | A peek succeeds exactly when the buffer can be filled to `n`, and then it returns the first `n` buffered items. |
| TokStreams.ExtendNone | tokutil.py:102-103 | Without `eoftok`, nothing is ever padded. |
| TokStreams.GetStep | tokutil.py:139-141 | `gettoks(k+1)` is `gettoks(k)` followed by one `gettok()`. |
| TokStreams.GetThenUnget | tokutil.py:143-150 | Outside any mark, `ungettok(gettok())` restores the stream, so every peek is as before. |
| TokStreams.ExtendIdempotent | tokutil.py:119-122 | `peekif`'s second peek sees the same item as `at_eof`'s. |
| TokStreams.Logged | tokutil.py:135-136 | Logging a get changes no frame count. |
| TokStreams.Merged | tokutil.py:210-214 | Closing an accepted inner frame leaves one frame fewer. |
| TokStreams.FrameAt | tokutil.py:220-224 | A context handle finds its own open frame, or none when that frame has closed. |
| TokStreams.LogsLogged | tokutil.py:131-137 | A get's item is appended to the innermost frame's log, and so to the end of every open frame's replay `Logs`. |
| TokStreams.LogsAgree | tokutil.py:220-224 | Logs depend only on the frames' logs. |
| TokStreams.LogsPush | tokutil.py:204-205 | A fresh frame adds nothing to any log. |
| TokStreams.LogsPop | tokutil.py:215-217 | Closing the innermost frame removes its log from the end. |
| TokStreams.LogsMerged | tokutil.py:210-214 | Merging an accepted inner frame into its enclosing one keeps every outer frame's logs. |
| TokStreams.SoundGet | tokutil.py:131-137 | `gettok` keeps the restoration invariant. |
| TokStreams.SoundGrow | tokutil.py:98-105 | Making an end-of-file token explicit keeps it. |
| TokStreams.SoundDisturb | tokutil.py:143-155 | A pushback or an iterator step keeps the invariant, with no frame still restorable. |
| TokStreams.SoundEnter | tokutil.py:199-205 | Opening a frame keeps the invariant, and the new frame is restorable. |
| TokStreams.SoundRestore | tokutil.py:215-218 | Unwinding the innermost frame keeps it for the frames outside. |
| TokStreams.SoundMerge | tokutil.py:210-214 | Closing an accepted frame keeps it for the frames outside. |
| TokStreams.SoundAccept | tokutil.py:220-224 | Accepting a frame keeps it. |
| TokStreams.SoundTop | tokutil.py:207-218 | An undisturbed innermost frame's log followed by the stream is the stream at its entry. |
| TokStreams.TokStream.constructor | tokutil.py:37-60 | The stream is the chained sources, followed by `lasttok` when given. Nothing is pushed back and no mark is open. |
| TokStreams.TokStream.PeekToks | tokutil.py:95-106 | The result is the first `n` items of the stream padded with `eoftok`, or failure past the end without one. Afterwards at least `n` items are buffered and the stream is unchanged, up to explicit end-of-file tokens. |
| TokStreams.TokStream.PeekTok | tokutil.py:108-110 | The next item, not consumed. |
| TokStreams.TokStream.AtEof | tokutil.py:125-129 | True exactly when peeking fails or shows the end-of-file token. Nothing is consumed. |
| TokStreams.TokStream.PeekIf | tokutil.py:114-123 | `eofmatch` at end of file when it is given. Otherwise the next item if `pred` holds of it, else None, or failure. Nothing is consumed. |
| TokStreams.TokStream.GetTok | tokutil.py:131-137 | Returns what `peektok` returns, removes it from the front, and appends it to the innermost open frame's log. |
| TokStreams.TokStream.GetToks | tokutil.py:139-141 | Returns the window of `n` items, drops them, and logs them. Where it fails, everything is consumed and logged. |
| TokStreams.TokStream.Unget | tokutil.py:143-155 | Puts one item, or a list in order, in front. An empty list changes nothing. Passing both, or calling after `__iter__`, fails without change. |
| TokStreams.TokStream.EnterMark | tokutil.py:199-208 | Opens a new innermost frame with an empty log and a fresh handle. |
| TokStreams.TokStream.AcceptMarks | tokutil.py:220-224 | Accepts the handle's frame, or the innermost one. Without a handle or an open frame it fails. |
| TokStreams.TokStream.ExitMark | tokutil.py:207-218 | An accepted frame's items stay consumed and join the enclosing log. An unaccepted frame's items go back in front, in order, restoring the stream at entry when the frame is undisturbed. After `__iter__` that pushback fails. |
| TokStreams.TokStream.CloseAccepted | tokutil.py:210-214 | The accepted branch of the frame exit. |
| TokStreams.TokStream.Unwind | tokutil.py:215-218 | The unaccepted branch of the frame exit, with the restoration property. |
| TokStreams.TokStream.Iter | tokutil.py:65-86 | `__iter__` fails with an `eoftok`, and otherwise disables `ungettok`. |
| TokStreams.TokStream.Next | tokutil.py:88-91 | `__next__` takes the next item, ignoring `eoftok` and logging nothing. |
| TokStreams.MarkExample | tokutil.py:364-379 | In the nested-mark example, `t4, t5, t6` equal `t1, t2, t3`. |
| TokStreams.LoggedTwice | tokutil.py:139-141 | Logging twice is logging the concatenation. |

## Left out

- The regex engine is a parameter, not code. Three things about it are assumptions:
  - `WellFormedSearch` requires every branch's matches to be non-empty, so the empty-match edge cases of `finditer` on a non-empty alternation are left out (a rule set with no branches at all is modelled, by `Scanner.RoundUnnamed`);
  - the continuation of `finditer` after a match is modelled as a new search from the match's end;
  - regexp compilation and the bad-regexp check (tokenizer.py:40-45) are not modelled.
- User converters (`TokenMatchConvert`, `TokenMatchInt`) are opaque functions. `int` parsing is not modelled.
- `str.upper()` is modelled for ASCII letters only.
- The `Enum` and `namedtuple` mechanics are not modelled:
  - the token-ID table is a sorted sequence with IDs numbered from 1;
  - `Token` and `TokLoc` are datatypes;
  - the `factory` field of `_MatchedInfo` is always `Token`.
- Generators become methods that return the whole output, plus an error where the source raises part-way. Tokens yielded before the error are returned with it.
- File reading and the `strings`/`srcname`/`startnum` attributes are left out. `tokens()` takes its arguments directly.
- The `__main__` test harnesses are not modelled. Only the nested-mark example is restated, as `MarkExample`.
- `TokStreams.TokStream.ExitMark` requires an open frame. A `with` block cannot be left without having been entered.
- Context managers become explicit `EnterMark` and `ExitMark` calls, and a context handle is a number.
- `StopIteration`, `TypeError` and `AttributeError` become `None` or `false` results.
- Python identity (`is`) becomes equality. Items are compared with `==` in `AtEof`.
- `TokStreams.TokStream.Unget` requires a token or a list, so `ungettok()` with no argument, which pushes back `None`, is left out.
- `TokStreams.TokStream.PeekIf`: an `eofmatch` of `None` is modelled as `Some(None)`. The outer `None` is the missing keyword.
- `TokStreams.TokStream.AtEof`: items are never `None`. With no `eoftok` the source's `peektok() is None` is also true for a `None` item (tokutil.py:127), but the model's item type has no such value.
- `TokStreams.TokStream.PeekIf`: items are never `None`, so the at-end-of-file test with no `eoftok` does not fire on a `None` item (tokutil.py:120-121). In the source a non-matching `None` result also looks like a `None` item. The model keeps the two apart.
- The joined regexp text `'|'.join(...)` (tokenizer.py:195-197) is not built. A compiled rule set keeps its list of branches, and the regex engine parameter searches over that list.
- Token sources are finite sequences. Infinite or lazily evaluated iterators are not modelled.
- Rule-set keys are compared by name. The source compares `RuleSet` objects by identity, and each name has one object.
- `"_next"` is a reserved name in the model, as it is in the source: a rule set literally named `"_next"` cannot be selected directly.

## Findings

| source | as written | input that shows it | evidently intended | confidence | as-written member | corrected member |
|---|---|---|---|---|---|---|
| tokenizer.py:263-292 | `linefilter` holds the make-up `"\n"` lines of a joined line until the start of the next iteration, so they are yielded before the combined line. | `["a\\\n", "b\n"]` with `preservelinecount=True` yields `["\n", "ab\n"]`. | The docstring (tokenizer.py:263-265) says the extra lines come after the combined line: `["ab\n", "\n"]`. | not executed | LineFilter.MakeupBeforeJoinedLine | LineFilter.IntendedGroup |
