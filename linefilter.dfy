/**
 * `Tokenizer.linefilter`: joining lines that end in an escaped newline
 * (backslash-newline), optionally emitting "\n" make-up lines so that a
 * running line count stays right.
 */
module LineFilter {

  /** How many backslashes end `s[..k]`: the run just before position `k`. */
  function TrailingRun(s: string, k: nat): (r: nat)
    requires k <= |s|
    ensures r <= k
    decreases k
  {
    if k == 0 || s[k - 1] != '\\' then 0 else 1 + TrailingRun(s, k - 1)
  }

  /** The run is maximal: all backslashes, and not preceded by one. */
  lemma {:induction false} TrailingRunMeaning(s: string, k: nat)
    requires k <= |s|
    ensures var r := TrailingRun(s, k);
      (forall q :: k - r <= q < k ==> s[q] == '\\') && (r < k ==> s[k - r - 1] != '\\')
    decreases k
  {
    if k > 0 && s[k - 1] == '\\' {
      TrailingRunMeaning(s, k - 1);
    }
  }

  /**
   * A continuation line: it ends with backslash-newline, and the run of
   * backslashes before the newline is odd, so its last one is not itself escaped.
   */
  predicate IsContinuation(s: string)
  {
    |s| >= 2 && s[|s| - 2] == '\\' && s[|s| - 1] == '\n' && TrailingRun(s, |s| - 1) % 2 == 1
  }

  /**
   * The test at the head of each round of `linefilter`: the backslashes before
   * the final newline are counted by a backward scan for the last non-backslash.
   */
  method Escaped(s: string) returns (escaped: bool)
    ensures escaped <==> IsContinuation(s)
  {
    escaped := false;
    if |s| >= 2 && s[|s| - 2] == '\\' && s[|s| - 1] == '\n' {
      var lastslash := 0;
      var pos: int := |s| - 3;
      while pos >= 0
        invariant -1 <= pos <= |s| - 3
        invariant TrailingRun(s, |s| - 1) == (|s| - 1) - (pos + 1) + TrailingRun(s, pos + 1)
        decreases pos
      {
        if s[pos] != '\\' {
          lastslash := pos + 1;
          break;
        }
        pos := pos - 1;
      }
      var nslashes := (|s| - 1) - lastslash;
      escaped := nslashes % 2 == 1;
    }
  }

  /** A continuation line without its final backslash-newline. */
  function Strip(s: string): (r: string)
    requires IsContinuation(s)
    ensures |r| == |s| - 2
  {
    s[..|s| - 2]
  }

  /** The make-up lines for `n` joined lines: `n` copies of "\n", or none. */
  function Makeup(preserve: bool, n: nat): (r: seq<string>)
    ensures |r| == if preserve then n else 0
  {
    if !preserve || n == 0 then [] else ["\n"] + Makeup(preserve, n - 1)
  }

  lemma {:induction false} MakeupAdd(preserve: bool, a: nat, b: nat)
    ensures Makeup(preserve, a) + Makeup(preserve, b) == Makeup(preserve, a + b)
    decreases a
  {
    if preserve && a > 0 {
      MakeupAdd(preserve, a - 1, b);
      assert ["\n"] + Makeup(preserve, a - 1) + Makeup(preserve, b)
          == ["\n"] + (Makeup(preserve, a - 1) + Makeup(preserve, b));
    } else if !preserve {
      assert Makeup(preserve, a) + Makeup(preserve, b) == [] + [];
    }
  }

  /** The stripped texts of continuation lines, concatenated. */
  function Strips(cs: seq<string>): string
    requires forall i :: 0 <= i < |cs| ==> IsContinuation(cs[i])
  {
    if cs == [] then "" else Strip(cs[0]) + Strips(cs[1..])
  }

  /** A line as it reaches its joined output: stripped if it continues, else as is. */
  function Joinable(s: string): string
  {
    if IsContinuation(s) then Strip(s) else s
  }

  /** All the text of `lines`, concatenated. */
  function Flatten(lines: seq<string>): string
  {
    if lines == [] then "" else lines[0] + Flatten(lines[1..])
  }

  lemma {:induction false} FlattenAppend(a: seq<string>, b: seq<string>)
    ensures Flatten(a + b) == Flatten(a) + Flatten(b)
    decreases |a|
  {
    if a == [] {
      assert a + b == b;
    } else {
      assert (a + b)[0] == a[0] && (a + b)[1..] == a[1..] + b;
      FlattenAppend(a[1..], b);
    }
  }

  lemma {:induction false} FlattenMakeup(n: nat)
    ensures Flatten(Makeup(false, n)) == ""
  {
  }

  // ---------------------------------------------------------------------------
  // linefilter as written

  /**
   * What the rest `ss` of the input yields, with `prev` the text joined so far
   * from `k` continuation lines. As written, the make-up line of a
   * continuation is yielded at the start of the round after it; after the
   * last round comes the leftover joined text (if not empty), then the last
   * pending make-up line.
   */
  function WrittenFrom(ss: seq<string>, preserve: bool, prev: string, k: nat): seq<string>
    decreases |ss|
  {
    var pending := Makeup(preserve, if k > 0 then 1 else 0);
    if ss == [] then (if prev != "" then [prev] else []) + pending
    else if IsContinuation(ss[0]) then pending + WrittenFrom(ss[1..], preserve, prev + Strip(ss[0]), k + 1)
    else pending + [prev + ss[0]] + WrittenFrom(ss[1..], preserve, "", 0)
  }

  lemma WrittenCons(ss: seq<string>, i: nat, preserve: bool, prev: string, k: nat)
    requires i < |ss|
    ensures WrittenFrom(ss[i..], preserve, prev, k)
         == Makeup(preserve, if k > 0 then 1 else 0) +
            if IsContinuation(ss[i]) then WrittenFrom(ss[i + 1..], preserve, prev + Strip(ss[i]), k + 1)
            else [prev + ss[i]] + WrittenFrom(ss[i + 1..], preserve, "", 0)
  {
    assert ss[i..][0] == ss[i] && ss[i..][1..] == ss[i + 1..];
  }

  /** `list(linefilter(strings, preservelinecount=preserve))` as the code is written. */
  function AsWritten(strings: seq<string>, preserve: bool): seq<string>
  {
    WrittenFrom(strings, preserve, "", 0)
  }

  /** The generator of `linefilter`, with the lines it yields collected in order. */
  method LineFilter(strings: seq<string>, preserve: bool) returns (out: seq<string>)
    ensures out == AsWritten(strings, preserve)
  {
    ghost var total := AsWritten(strings, preserve);
    var makeups: seq<string> := [];
    var prev := "";
    ghost var k: nat := 0;
    out := [];
    for i := 0 to |strings|
      invariant makeups == Makeup(preserve, if k > 0 then 1 else 0)
      invariant k == 0 ==> prev == ""
      invariant out + WrittenFrom(strings[i..], preserve, prev, k) == total
    {
      var s := strings[i];
      WrittenCons(strings, i, preserve, prev, k);
      ghost var was, pend := out, makeups;
      out := out + makeups;
      makeups := [];
      var escaped := Escaped(s);
      if escaped {
        ghost var rest := WrittenFrom(strings[i + 1..], preserve, prev + Strip(s), k + 1);
        Assoc(was, pend, rest);
        prev := prev + Strip(s);
        k := k + 1;
        if preserve {
          makeups := makeups + ["\n"];
        }
      }
      if !escaped {
        ghost var rest := WrittenFrom(strings[i + 1..], preserve, "", 0);
        Assoc(was, pend, [prev + s] + rest);
        Assoc(out, [prev + s], rest);
        out := out + [prev + s];
        prev := "";
        k := 0;
      }
    }
    ghost var last := out;
    WrittenEnd(strings, preserve, prev, k);
    if prev != "" {
      out := out + [prev];
    }
    out := out + makeups;
    Assoc(last, if prev != "" then [prev] else [], makeups);
  }

  lemma Assoc<T>(a: seq<T>, b: seq<T>, c: seq<T>)
    ensures a + (b + c) == (a + b) + c
  {
  }

  lemma WrittenEnd(ss: seq<string>, preserve: bool, prev: string, k: nat)
    ensures WrittenFrom(ss[|ss|..], preserve, prev, k)
         == (if prev != "" then [prev] else []) + Makeup(preserve, if k > 0 then 1 else 0)
  {
    assert ss[|ss|..] == [];
  }

  // ---------------------------------------------------------------------------
  // linefilter as its documentation describes it

  /**
   * The intended outcome: each joined line is followed by the make-up lines
   * of the continuation lines that were combined into it.
   */
  function IntendedFrom(ss: seq<string>, preserve: bool, prev: string, k: nat): seq<string>
    decreases |ss|
  {
    if ss == [] then (if prev != "" then [prev] else []) + Makeup(preserve, k)
    else if IsContinuation(ss[0]) then IntendedFrom(ss[1..], preserve, prev + Strip(ss[0]), k + 1)
    else [prev + ss[0]] + Makeup(preserve, k) + IntendedFrom(ss[1..], preserve, "", 0)
  }

  function Intended(strings: seq<string>, preserve: bool): seq<string>
  {
    IntendedFrom(strings, preserve, "", 0)
  }

  /**
   * The corrected generator: the make-up lines collected for a joined line
   * are yielded right after it.
   */
  method LineFilterCorrected(strings: seq<string>, preserve: bool) returns (out: seq<string>)
    ensures out == Intended(strings, preserve)
  {
    ghost var total := Intended(strings, preserve);
    var makeups: seq<string> := [];
    var prev := "";
    ghost var k: nat := 0;
    out := [];
    for i := 0 to |strings|
      invariant makeups == Makeup(preserve, k)
      invariant k == 0 ==> prev == ""
      invariant out + IntendedFrom(strings[i..], preserve, prev, k) == total
    {
      var s := strings[i];
      IntendedCons(strings, i, preserve, prev, k);
      var escaped := Escaped(s);
      if escaped {
        prev := prev + Strip(s);
        if preserve {
          MakeupAdd(preserve, k, 1);
          makeups := makeups + ["\n"];
        }
        k := k + 1;
      } else {
        ghost var rest := IntendedFrom(strings[i + 1..], preserve, "", 0);
        Assoc(out, [prev + s] + makeups, rest);
        Assoc(out, [prev + s], makeups);
        out := out + [prev + s] + makeups;
        prev := "";
        makeups := [];
        k := 0;
      }
    }
    ghost var last := out;
    IntendedEnd(strings, preserve, prev, k);
    if prev != "" {
      out := out + [prev];
    }
    out := out + makeups;
    Assoc(last, if prev != "" then [prev] else [], makeups);
  }

  lemma IntendedCons(ss: seq<string>, i: nat, preserve: bool, prev: string, k: nat)
    requires i < |ss|
    ensures IntendedFrom(ss[i..], preserve, prev, k)
         == if IsContinuation(ss[i]) then IntendedFrom(ss[i + 1..], preserve, prev + Strip(ss[i]), k + 1)
            else [prev + ss[i]] + Makeup(preserve, k) + IntendedFrom(ss[i + 1..], preserve, "", 0)
  {
    assert ss[i..][0] == ss[i] && ss[i..][1..] == ss[i + 1..];
  }

  lemma IntendedEnd(ss: seq<string>, preserve: bool, prev: string, k: nat)
    ensures IntendedFrom(ss[|ss|..], preserve, prev, k)
         == (if prev != "" then [prev] else []) + Makeup(preserve, k)
  {
    assert ss[|ss|..] == [];
  }

  // ---------------------------------------------------------------------------
  // What the filter promises

  /**
   * A group of continuation lines `cs` closed by the line `t`, as written:
   * the make-up lines come first, then the joined line.
   */
  lemma {:induction false} WrittenGroup(cs: seq<string>, t: string, more: seq<string>,
                                        preserve: bool, prev: string, k: nat)
    requires forall i :: 0 <= i < |cs| ==> IsContinuation(cs[i])
    requires !IsContinuation(t)
    ensures WrittenFrom(cs + [t] + more, preserve, prev, k)
         == Makeup(preserve, (if k > 0 then 1 else 0) + |cs|) + [prev + Strips(cs) + t]
            + WrittenFrom(more, preserve, "", 0)
    decreases |cs|
  {
    var ss := cs + [t] + more;
    var pend := Makeup(preserve, if k > 0 then 1 else 0);
    var after := WrittenFrom(more, preserve, "", 0);
    if cs == [] {
      assert ss[0] == t && ss[1..] == more;
      assert prev + Strips(cs) + t == prev + t;
    } else {
      assert ss[0] == cs[0] && ss[1..] == cs[1..] + [t] + more;
      var prev' := prev + Strip(cs[0]);
      WrittenGroup(cs[1..], t, more, preserve, prev', k + 1);
      var line := prev' + Strips(cs[1..]) + t;
      assert WrittenFrom(ss, preserve, prev, k)
          == pend + (Makeup(preserve, 1 + |cs[1..]|) + [line] + after);
      MakeupAdd(preserve, if k > 0 then 1 else 0, 1 + |cs[1..]|);
      Assoc(pend, Makeup(preserve, 1 + |cs[1..]|), [line] + after);
      Assoc(pend + Makeup(preserve, 1 + |cs[1..]|), [line], after);
      assert line == prev + Strips(cs) + t;
    }
  }

  /**
   * The same group, as documented: the joined line comes first, then one
   * make-up line for each continuation line combined into it.
   */
  lemma {:induction false} IntendedGroup(cs: seq<string>, t: string, more: seq<string>,
                                         preserve: bool, prev: string, k: nat)
    requires forall i :: 0 <= i < |cs| ==> IsContinuation(cs[i])
    requires !IsContinuation(t)
    ensures IntendedFrom(cs + [t] + more, preserve, prev, k)
         == [prev + Strips(cs) + t] + Makeup(preserve, k + |cs|) + IntendedFrom(more, preserve, "", 0)
    decreases |cs|
  {
    var ss := cs + [t] + more;
    if cs == [] {
      assert ss[0] == t && ss[1..] == more;
      assert prev + Strips(cs) + t == prev + t;
    } else {
      assert ss[0] == cs[0] && ss[1..] == cs[1..] + [t] + more;
      IntendedGroup(cs[1..], t, more, preserve, prev + Strip(cs[0]), k + 1);
      assert prev + Strip(cs[0]) + Strips(cs[1..]) + t == prev + Strips(cs) + t;
    }
  }

  /** With make-up lines, a line count is preserved when the last line is not a continuation. */
  lemma {:induction false} WrittenCount(ss: seq<string>, prev: string, k: nat)
    requires ss == [] ==> k == 0 && prev == ""
    requires ss != [] ==> !IsContinuation(ss[|ss| - 1])
    ensures |WrittenFrom(ss, true, prev, k)| == |ss| + (if k > 0 then 1 else 0)
    decreases |ss|
  {
    if ss != [] {
      var rest := ss[1..];
      if IsContinuation(ss[0]) {
        assert rest != [] && rest[|rest| - 1] == ss[|ss| - 1];
        WrittenCount(rest, prev + Strip(ss[0]), k + 1);
      } else {
        if rest != [] {
          assert rest[|rest| - 1] == ss[|ss| - 1];
        }
        WrittenCount(rest, "", 0);
      }
    }
  }

  lemma LineCountPreserved(strings: seq<string>)
    requires strings != [] ==> !IsContinuation(strings[|strings| - 1])
    ensures |AsWritten(strings, true)| == |strings|
    ensures |Intended(strings, true)| == |strings|
  {
    WrittenCount(strings, "", 0);
    IntendedCount(strings, "", 0);
  }

  lemma {:induction false} IntendedCount(ss: seq<string>, prev: string, k: nat)
    requires ss == [] ==> k == 0 && prev == ""
    requires ss != [] ==> !IsContinuation(ss[|ss| - 1])
    ensures |IntendedFrom(ss, true, prev, k)| == |ss| + k
    decreases |ss|
  {
    if ss != [] {
      var rest := ss[1..];
      if IsContinuation(ss[0]) {
        assert rest != [] && rest[|rest| - 1] == ss[|ss| - 1];
        IntendedCount(rest, prev + Strip(ss[0]), k + 1);
      } else {
        if rest != [] {
          assert rest[|rest| - 1] == ss[|ss| - 1];
        }
        IntendedCount(rest, "", 0);
      }
    }
  }

  /** Without make-up lines, the output holds the input with every backslash-newline escape removed. */
  lemma {:induction false} WrittenText(ss: seq<string>, prev: string, k: nat)
    ensures Flatten(WrittenFrom(ss, false, prev, k)) == prev + MapFlatten(ss)
    decreases |ss|
  {
    if ss == [] {
      assert prev + MapFlatten(ss) == prev;
      if prev != "" {
        assert WrittenFrom(ss, false, prev, k) == [prev];
        assert Flatten([prev]) == prev + Flatten([]);
      }
    } else {
      WrittenCons(ss, 0, false, prev, k);
      assert ss[0..] == ss && ss[1..] == ss[0 + 1..];
      var s0, rest := ss[0], ss[1..];
      if IsContinuation(s0) {
        assert WrittenFrom(ss, false, prev, k) == WrittenFrom(rest, false, prev + Strip(s0), k + 1);
        WrittenText(rest, prev + Strip(s0), k + 1);
        assert Joinable(s0) == Strip(s0);
        Assoc(prev, Strip(s0), MapFlatten(rest));
      } else {
        var after := WrittenFrom(rest, false, "", 0);
        assert WrittenFrom(ss, false, prev, k) == [prev + s0] + after;
        WrittenText(rest, "", 0);
        assert "" + MapFlatten(rest) == MapFlatten(rest);
        assert ([prev + s0] + after)[1..] == after;
        assert Joinable(s0) == s0;
        Assoc(prev, s0, MapFlatten(rest));
      }
    }
  }

  /** The lines of `ss`, each as it enters a joined line, concatenated. */
  function MapFlatten(ss: seq<string>): string
  {
    if ss == [] then "" else Joinable(ss[0]) + MapFlatten(ss[1..])
  }

  lemma TextWithoutMakeups(strings: seq<string>)
    ensures Flatten(AsWritten(strings, false)) == MapFlatten(strings)
    ensures AsWritten(strings, false) == Intended(strings, false)
  {
    WrittenText(strings, "", 0);
    WrittenAgrees(strings, "", 0);
  }

  /** The ordering of make-up lines is all that separates the code from its documentation. */
  lemma {:induction false} WrittenAgrees(ss: seq<string>, prev: string, k: nat)
    ensures WrittenFrom(ss, false, prev, k) == IntendedFrom(ss, false, prev, k)
    decreases |ss|
  {
    if ss != [] {
      WrittenAgrees(ss[1..], prev + (if IsContinuation(ss[0]) then Strip(ss[0]) else ""), k + 1);
      WrittenAgrees(ss[1..], "", 0);
    }
  }

  /** The smallest input that shows the make-up line on the wrong side of its joined line. */
  lemma MakeupBeforeJoinedLine()
    ensures AsWritten(["a\\\n", "b\n"], true) == ["\n", "ab\n"]
    ensures Intended(["a\\\n", "b\n"], true) == ["ab\n", "\n"]
  {
    var c, t := "a\\\n", "b\n";
    assert TrailingRun(c, 2) == 1;
    assert IsContinuation(c);
    assert TrailingRun(t, 1) == 0;
    assert !IsContinuation(t);
    WrittenGroup([c], t, [], true, "", 0);
    IntendedGroup([c], t, [], true, "", 0);
    assert Strip(c) == "a";
    assert Strips([c]) == "a" + Strips([]);
    assert "" + Strips([c]) + t == "ab\n";
    assert Makeup(true, 1) == ["\n"] + Makeup(true, 0);
    assert WrittenFrom([], true, "", 0) == [] && IntendedFrom([], true, "", 0) == [];
    assert [c] + [t] + [] == ["a\\\n", "b\n"];
  }
}
