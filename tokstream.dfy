/**
 * `TokStreamEnhancer`: pushback, lookahead and nested marks over the
 * concatenation of several token sources, optionally followed by a last
 * token and padded with an end-of-file token.
 */
module TokStreams {
  import opened Wrappers

  // ---------------------------------------------------------------------------
  // The stream as the enhancer presents it

  /** `n` copies of the end-of-file token, or nothing when there is none. */
  function Pad<T>(eof: Option<T>, n: nat): (r: seq<T>)
    ensures |r| == if eof.Some? then n else 0
    decreases n
  {
    if eof.None? || n == 0 then [] else Pad(eof, n - 1) + [eof.value]
  }

  lemma {:induction false} PadAt<T>(eof: Option<T>, n: nat, i: nat)
    requires eof.Some? && i < n
    ensures Pad(eof, n)[i] == eof.value
    decreases n
  {
    if i < n - 1 {
      PadAt(eof, n - 1, i);
    }
  }

  lemma {:induction false} PadAdd<T>(eof: Option<T>, a: nat, b: nat)
    ensures Pad(eof, a) + Pad(eof, b) == Pad(eof, a + b)
    decreases b
  {
    if eof.Some? && b > 0 {
      PadAdd(eof, a, b - 1);
      assert Pad(eof, a) + (Pad(eof, b - 1) + [eof.value]) == (Pad(eof, a) + Pad(eof, b - 1)) + [eof.value];
    } else if eof.None? {
      assert Pad(eof, a) + Pad(eof, b) == [] + [];
    }
  }

  /**
   * The first `n` items of `s` followed by `eof` forever: what `peektoks(n)`
   * returns, or None where it raises `StopIteration` (no `eof`, too few items).
   */
  function Window<T>(s: seq<T>, eof: Option<T>, n: nat): (r: Option<seq<T>>)
  {
    if n <= |s| then Some(s[..n])
    else if eof.Some? then Some(s + Pad(eof, n - |s|))
    else None
  }

  /** The next item of `s` followed by `eof` forever: what `peektok()` returns. */
  function Head<T>(s: seq<T>, eof: Option<T>): (r: Option<T>)
  {
    if s != [] then Some(s[0]) else eof
  }

  /** `s` with enough end-of-file tokens made explicit to hold `n` items. */
  function Extend<T>(s: seq<T>, eof: Option<T>, n: nat): (r: seq<T>)
  {
    if n > |s| then s + Pad(eof, n - |s|) else s
  }

  /** Without an end-of-file token, peeking fails exactly past the end. */
  lemma WindowWithoutEof<T>(s: seq<T>, n: nat)
    ensures Window(s, None, n).None? <==> n > |s|
    ensures n <= |s| ==> Window(s, None, n) == Some(s[..n])
  {
  }

  /** With one, peeking never fails, and every item past the end is the end-of-file token. */
  lemma WindowWithEof<T>(s: seq<T>, e: T, n: nat)
    ensures Window(s, Some(e), n).Some? && |Window(s, Some(e), n).value| == n
    ensures forall i :: 0 <= i < n ==>
      Window(s, Some(e), n).value[i] == if i < |s| then s[i] else e
  {
    var w := Window(s, Some(e), n).value;
    forall i | 0 <= i < n ensures w[i] == if i < |s| then s[i] else e {
      if n > |s| && i >= |s| {
        PadAt(Some(e), n - |s|, i - |s|);
      }
    }
  }

  /** `peektok()` is `peektoks(1)[0]`. */
  lemma HeadIsWindowOne<T>(s: seq<T>, eof: Option<T>)
    ensures Head(s, eof).Some? <==> Window(s, eof, 1).Some?
    ensures Head(s, eof).Some? ==> Window(s, eof, 1).value == [Head(s, eof).value]
  {
    if s == [] && eof.Some? {
      assert Pad(eof, 1) == [] + [eof.value];
    }
  }

  /** A shorter peek returns a prefix of a longer one. */
  lemma {:induction false} WindowPrefix<T>(s: seq<T>, eof: Option<T>, k: nat, n: nat)
    requires k <= n && Window(s, eof, n).Some?
    ensures Window(s, eof, k) == Some(Window(s, eof, n).value[..k])
  {
    var w := Window(s, eof, n).value;
    if k <= |s| {
      assert w[..k] == s[..k];
    } else {
      PadAdd(eof, k - |s|, n - k);
      assert w[..k] == s + Pad(eof, k - |s|);
    }
  }

  /** Explicit end-of-file tokens at the end change no peek. */
  lemma {:induction false} WindowPad<T>(s: seq<T>, eof: Option<T>, m: nat, k: nat)
    ensures Window(s + Pad(eof, m), eof, k) == Window(s, eof, k)
  {
    var x := s + Pad(eof, m);
    if eof.Some? {
      var e := eof.value;
      WindowWithEof(x, e, k);
      WindowWithEof(s, e, k);
      var w, v := Window(x, eof, k).value, Window(s, eof, k).value;
      forall i | 0 <= i < k ensures w[i] == v[i] {
        if |s| <= i < |x| {
          PadAt(eof, m, i - |s|);
        }
      }
      assert w == v;
    } else {
      assert x == s;
    }
  }

  /** Making end-of-file tokens explicit changes no peek: peeking consumes nothing. */
  lemma WindowExtend<T>(s: seq<T>, eof: Option<T>, n: nat, m: nat)
    ensures Window(Extend(s, eof, n), eof, m) == Window(s, eof, m)
  {
    if n > |s| {
      WindowPad(s, eof, n - |s|, m);
    }
  }

  /** Peeking `n` fills to `n` items exactly when it does not fail. */
  lemma ExtendHolds<T>(s: seq<T>, eof: Option<T>, n: nat)
    ensures Window(s, eof, n).Some? <==> n <= |Extend(s, eof, n)|
    ensures Window(s, eof, n).Some? ==> Window(s, eof, n).value == Extend(s, eof, n)[..n]
  {
    if eof.None? {
      assert Extend(s, eof, n) == s;
    }
  }

  lemma ExtendNone<T>(s: seq<T>, n: nat)
    ensures Extend(s, None, n) == s
  {
    if n > |s| {
      assert s + Pad(None, n - |s|) == s + [];
    }
  }

  /** The items left after `k` gets, when those succeed. */
  function Dropped<T>(s: seq<T>, eof: Option<T>, k: nat): seq<T>
  {
    var x := Extend(s, eof, k);
    if k <= |x| then x[k..] else []
  }

  /** One more get takes the head of what is left: `gettoks(n)` is n calls of `gettok()`. */
  lemma {:induction false} GetStep<T>(s: seq<T>, eof: Option<T>, k: nat)
    requires Window(s, eof, k).Some?
    ensures var h := Head(Dropped(s, eof, k), eof);
      && (Window(s, eof, k + 1).Some? <==> h.Some?)
      && (h.Some? ==> Window(s, eof, k + 1).value == Window(s, eof, k).value + [h.value])
      && (h.Some? ==> Dropped(s, eof, k + 1) == Extend(Dropped(s, eof, k), eof, 1)[1..])
  {
    var d := Dropped(s, eof, k);
    ExtendHolds(s, eof, k);
    ExtendHolds(s, eof, k + 1);
    if k < |s| {
      assert d == s[k..];
      assert s[..k + 1] == s[..k] + [s[k]];
    } else if eof.Some? {
      var e := eof.value;
      PadAdd(eof, k - |s|, 1);
      assert Pad(eof, 1) == [] + [e];
      assert Extend(s, eof, k) == s + Pad(eof, k - |s|);
      assert d == [];
      assert Extend(s, eof, k + 1) == Extend(s, eof, k) + [e];
    } else {
      ExtendNone(s, k);
      ExtendNone(s, k + 1);
    }
  }

  /** A gotten item pushed back restores the stream: `ungettok(gettok())`. */
  lemma GetThenUnget<T>(s: seq<T>, eof: Option<T>, m: nat)
    requires Head(s, eof).Some?
    ensures [Head(s, eof).value] + Extend(s, eof, 1)[1..] == Extend(s, eof, 1)
    ensures Window([Head(s, eof).value] + Extend(s, eof, 1)[1..], eof, m) == Window(s, eof, m)
  {
    if s == [] {
      assert Pad(eof, 1) == [] + [eof.value];
    }
    WindowExtend(s, eof, 1, m);
  }

  lemma ExtendIdempotent<T>(s: seq<T>, eof: Option<T>)
    ensures Extend(Extend(s, eof, 1), eof, 1) == Extend(s, eof, 1)
    ensures Head(Extend(s, eof, 1), eof) == Head(s, eof)
  {
    if s == [] && eof.Some? {
      assert Pad(eof, 1) == [] + [eof.value];
    }
  }

  /** The concatenation of the token sources (`itertools.chain`). */
  function Chain<T>(streams: seq<seq<T>>): seq<T>
  {
    if streams == [] then [] else streams[0] + Chain(streams[1..])
  }

  // ---------------------------------------------------------------------------
  // Mark frames

  /**
   * One open `tokmark()` context: its identity, the items gotten while it is
   * the innermost frame (`_markedtoks`), and its `accepted` flag.
   */
  datatype Frame<T> = Frame(id: nat, log: seq<T>, accepted: bool)

  /** The logs of frames `i` and inward, outermost first. */
  function Logs<T>(fs: seq<Frame<T>>, i: nat): seq<T>
    decreases |fs| - i
  {
    if i >= |fs| then [] else fs[i].log + Logs(fs, i + 1)
  }

  /** `ts` appended to the log of the innermost frame, if there is one. */
  function Logged<T>(fs: seq<Frame<T>>, ts: seq<T>): (r: seq<Frame<T>>)
    ensures |r| == |fs|
  {
    if fs == [] then [] else fs[..|fs| - 1] + [fs[|fs| - 1].(log := fs[|fs| - 1].log + ts)]
  }

  /** The innermost frame closed after acceptance, its log added to the enclosing one. */
  function Merged<T>(fs: seq<Frame<T>>): (r: seq<Frame<T>>)
    requires |fs| >= 2
    ensures |r| == |fs| - 1
  {
    var k := |fs| - 2;
    fs[..k] + [fs[k].(log := fs[k].log + fs[k + 1].log)]
  }

  /** The position of the open frame `id`, if it is still open. */
  function FrameAt<T>(fs: seq<Frame<T>>, id: nat): (r: Option<nat>)
    ensures r.Some? ==> r.value < |fs| && fs[r.value].id == id
    ensures r.None? ==> forall i :: 0 <= i < |fs| ==> fs[i].id != id
  {
    if fs == [] then None
    else if fs[|fs| - 1].id == id then Some(|fs| - 1)
    else FrameAt(fs[..|fs| - 1], id)
  }

  lemma {:induction false} LogsLogged<T>(fs: seq<Frame<T>>, ts: seq<T>, i: nat)
    requires i < |fs|
    ensures Logs(Logged(fs, ts), i) == Logs(fs, i) + ts
    decreases |fs| - i
  {
    var l := Logged(fs, ts);
    var k := |fs| - 1;
    assert l[k] == fs[k].(log := fs[k].log + ts);
    if i == k {
      assert Logs(l, i) == l[k].log + Logs(l, k + 1);
      assert Logs(fs, i) == fs[k].log + Logs(fs, k + 1);
      assert Logs(l, k + 1) == [] && Logs(fs, k + 1) == [];
      assert fs[k].log + ts + [] == (fs[k].log + []) + ts;
    } else {
      LogsLogged(fs, ts, i + 1);
      assert l[i] == fs[i];
      assert Logs(l, i) == fs[i].log + (Logs(fs, i + 1) + ts);
      assert fs[i].log + (Logs(fs, i + 1) + ts) == (fs[i].log + Logs(fs, i + 1)) + ts;
    }
  }

  /** Frames that agree from `i` inward have the same logs from `i`. */
  lemma {:induction false} LogsAgree<T>(fs: seq<Frame<T>>, gs: seq<Frame<T>>, i: nat)
    requires |fs| == |gs| && forall j :: i <= j < |fs| ==> fs[j].log == gs[j].log
    ensures Logs(fs, i) == Logs(gs, i)
    decreases |fs| - i
  {
    if i < |fs| {
      LogsAgree(fs, gs, i + 1);
    }
  }

  lemma {:induction false} LogsPush<T>(fs: seq<Frame<T>>, f: Frame<T>, i: nat)
    requires i <= |fs| && f.log == []
    ensures Logs(fs + [f], i) == Logs(fs, i)
    decreases |fs| - i
  {
    var g := fs + [f];
    if i == |fs| {
      assert Logs(g, i + 1) == [];
    } else {
      LogsPush(fs, f, i + 1);
      assert g[i] == fs[i];
    }
  }

  lemma {:induction false} LogsPop<T>(fs: seq<Frame<T>>, i: nat)
    requires i < |fs|
    ensures Logs(fs[..|fs| - 1], i) + fs[|fs| - 1].log == Logs(fs, i)
    decreases |fs| - i
  {
    var g := fs[..|fs| - 1];
    if i == |fs| - 1 {
      assert Logs(g, i) == [] && Logs(fs, i + 1) == [];
    } else {
      LogsPop(fs, i + 1);
      assert g[i] == fs[i];
    }
  }

  lemma {:induction false} LogsMerged<T>(fs: seq<Frame<T>>, i: nat)
    requires |fs| >= 2 && i <= |fs| - 2
    ensures Logs(Merged(fs), i) == Logs(fs, i)
    decreases |fs| - i
  {
    var g := Merged(fs);
    var k := |fs| - 2;
    if i == k {
      assert Logs(g, i + 1) == [] && Logs(fs, k + 2) == [];
      assert Logs(fs, i) == fs[k].log + (fs[k + 1].log + []);
    } else {
      LogsMerged(fs, i + 1);
      assert g[i] == fs[i];
    }
  }

  /**
   * The restoration invariant of the mark stack: for every open frame `i`
   * that no pushback or iterator step has disturbed, the logs from `i` inward
   * followed by the stream are the stream as it was when `i` was entered,
   * up to end-of-file tokens made explicit since.
   */
  ghost predicate Sound<T>(fs: seq<Frame<T>>, nextId: nat, entries: seq<seq<T>>, madeAt: seq<nat>,
                           intact: seq<bool>, made: nat, c: seq<T>, eof: Option<T>)
  {
    && |entries| == |fs| && |madeAt| == |fs| && |intact| == |fs|
    && (forall i :: 0 <= i < |fs| ==> fs[i].id < nextId && madeAt[i] <= made)
    && (forall i :: 0 <= i < |fs| && intact[i] ==>
          Logs(fs, i) + c == entries[i] + Pad(eof, made - madeAt[i]))
  }

  /** Getting the next item moves it from the stream into the innermost log. */
  lemma SoundGet<T>(fs: seq<Frame<T>>, nextId: nat, entries: seq<seq<T>>, madeAt: seq<nat>,
                    intact: seq<bool>, made: nat, c: seq<T>, eof: Option<T>)
    requires Sound(fs, nextId, entries, madeAt, intact, made, c, eof) && c != []
    ensures Sound(Logged(fs, [c[0]]), nextId, entries, madeAt, intact, made, c[1..], eof)
  {
    var l := Logged(fs, [c[0]]);
    forall i | 0 <= i < |fs| ensures l[i].id == fs[i].id {
    }
    forall i | 0 <= i < |fs| && intact[i]
      ensures Logs(l, i) + c[1..] == entries[i] + Pad(eof, made - madeAt[i])
    {
      LogsLogged(fs, [c[0]], i);
      assert Logs(fs, i) + [c[0]] + c[1..] == Logs(fs, i) + c;
    }
  }

  /** An end-of-file token made explicit at the end of the stream. */
  lemma SoundGrow<T>(fs: seq<Frame<T>>, nextId: nat, entries: seq<seq<T>>, madeAt: seq<nat>,
                     intact: seq<bool>, made: nat, c: seq<T>, eof: Option<T>)
    requires Sound(fs, nextId, entries, madeAt, intact, made, c, eof) && eof.Some?
    ensures Sound(fs, nextId, entries, madeAt, intact, made + 1, c + [eof.value], eof)
  {
    forall i | 0 <= i < |fs| && intact[i]
      ensures Logs(fs, i) + (c + [eof.value]) == entries[i] + Pad(eof, made + 1 - madeAt[i])
    {
      assert Pad(eof, made + 1 - madeAt[i]) == Pad(eof, made - madeAt[i]) + [eof.value];
      assert Logs(fs, i) + c == entries[i] + Pad(eof, made - madeAt[i]);
      assert Logs(fs, i) + (c + [eof.value]) == (Logs(fs, i) + c) + [eof.value];
      assert entries[i] + (Pad(eof, made - madeAt[i]) + [eof.value])
          == (entries[i] + Pad(eof, made - madeAt[i])) + [eof.value];
    }
  }

  /** A pushback or an iterator step: no open frame can be restored any more. */
  lemma SoundDisturb<T>(fs: seq<Frame<T>>, nextId: nat, entries: seq<seq<T>>, madeAt: seq<nat>,
                        intact: seq<bool>, made: nat, c: seq<T>, c': seq<T>, eof: Option<T>)
    requires Sound(fs, nextId, entries, madeAt, intact, made, c, eof)
    ensures Sound(fs, nextId, entries, madeAt, seq(|fs|, _ => false), made, c', eof)
  {
  }

  lemma SoundEnter<T>(fs: seq<Frame<T>>, nextId: nat, entries: seq<seq<T>>, madeAt: seq<nat>,
                      intact: seq<bool>, made: nat, c: seq<T>, eof: Option<T>)
    requires Sound(fs, nextId, entries, madeAt, intact, made, c, eof)
    ensures Sound(fs + [Frame(nextId, [], false)], nextId + 1, entries + [c], madeAt + [made],
                  intact + [true], made, c, eof)
  {
    var g := fs + [Frame(nextId, [], false)];
    forall i | 0 <= i < |g| && (intact + [true])[i]
      ensures Logs(g, i) + c == (entries + [c])[i] + Pad(eof, made - (madeAt + [made])[i])
    {
      LogsPush(fs, Frame(nextId, [], false), i);
      if i == |fs| {
        assert Logs(fs, i) == [] && Pad(eof, 0) == [];
      }
    }
  }

  /** An unaccepted frame closed: its log goes back in front of the stream. */
  lemma SoundRestore<T>(fs: seq<Frame<T>>, nextId: nat, entries: seq<seq<T>>, madeAt: seq<nat>,
                        intact: seq<bool>, made: nat, c: seq<T>, eof: Option<T>)
    requires Sound(fs, nextId, entries, madeAt, intact, made, c, eof) && fs != []
    ensures var k := |fs| - 1;
      Sound(fs[..k], nextId, entries[..k], madeAt[..k], intact[..k], made, fs[k].log + c, eof)
  {
    var k := |fs| - 1;
    var g := fs[..k];
    forall i | 0 <= i < k ensures g[i] == fs[i] {
    }
    forall i | 0 <= i < k && intact[i]
      ensures Logs(g, i) + (fs[k].log + c) == entries[i] + Pad(eof, made - madeAt[i])
    {
      var a, b := Logs(g, i), fs[k].log;
      LogsPop(fs, i);
      assert a + b == Logs(fs, i);
      assert a + (b + c) == (a + b) + c;
    }
  }

  /** An accepted frame closed inside another: its log joins the enclosing one. */
  lemma SoundMerge<T>(fs: seq<Frame<T>>, nextId: nat, entries: seq<seq<T>>, madeAt: seq<nat>,
                      intact: seq<bool>, made: nat, c: seq<T>, eof: Option<T>)
    requires Sound(fs, nextId, entries, madeAt, intact, made, c, eof) && |fs| >= 2
    ensures var k := |fs| - 1;
      Sound(Merged(fs), nextId, entries[..k], madeAt[..k], intact[..k], made, c, eof)
  {
    var k := |fs| - 1;
    var g := Merged(fs);
    forall i | 0 <= i < k ensures g[i].id == fs[i].id {
    }
    forall i | 0 <= i < k && intact[i]
      ensures Logs(g, i) + c == entries[i] + Pad(eof, made - madeAt[i])
    {
      LogsMerged(fs, i);
    }
  }

  /** Accepting a frame changes no log. */
  lemma SoundAccept<T>(fs: seq<Frame<T>>, nextId: nat, entries: seq<seq<T>>, madeAt: seq<nat>,
                       intact: seq<bool>, made: nat, c: seq<T>, eof: Option<T>, j: nat)
    requires Sound(fs, nextId, entries, madeAt, intact, made, c, eof) && j < |fs|
    ensures Sound(fs[j := fs[j].(accepted := true)], nextId, entries, madeAt, intact, made, c, eof)
  {
    var g := fs[j := fs[j].(accepted := true)];
    forall i | 0 <= i < |fs| && intact[i]
      ensures Logs(g, i) + c == entries[i] + Pad(eof, made - madeAt[i])
    {
      LogsAgree(fs, g, i);
    }
  }

  /** The innermost frame, undisturbed, holds everything gotten since it opened. */
  lemma SoundTop<T>(fs: seq<Frame<T>>, nextId: nat, entries: seq<seq<T>>, madeAt: seq<nat>,
                    intact: seq<bool>, made: nat, c: seq<T>, eof: Option<T>)
    requires Sound(fs, nextId, entries, madeAt, intact, made, c, eof) && fs != [] && intact[|fs| - 1]
    ensures var k := |fs| - 1; fs[k].log + c == entries[k] + Pad(eof, made - madeAt[k])
  {
    var k := |fs| - 1;
    assert Logs(fs, k) == fs[k].log + [];
  }

  // ---------------------------------------------------------------------------
  // The enhancer object

  class TokStream<T(==)> {
    /** What is left of the chained token sources (`_tokens`), `lasttok` included. */
    var chain: seq<T>
    /** `_eoftok`; None is no end-of-file token. */
    const eoftok: Option<T>
    /** `_pushedback`: peeked or pushed-back items, in stream order. */
    var pushedback: seq<T>
    /**
     * The open `tokmark()` contexts, outermost first: the innermost log is
     * `_markedtoks`, the innermost frame `_unmarkctx`, and each frame's
     * saved `prevmarked` is the log of the frame before it.
     */
    var frames: seq<Frame<T>>
    /** The identity the next context handle gets. */
    var nextId: nat
    /** Set by `__iter__`, after which `ungettok` raises `TypeError`. */
    var iterating: bool

    /** For each open frame: the stream when it was entered, ... */
    ghost var entries: seq<seq<T>>
    /** ... how many end-of-file tokens had been made explicit by then, ... */
    ghost var madeAt: seq<nat>
    /** ... and whether nothing has been pushed back or iterated since. */
    ghost var intact: seq<bool>
    /** End-of-file tokens made explicit in `pushedback` so far. */
    ghost var made: nat

    /** The stream to come: the pushed-back items, then the rest of the sources. */
    function Contents(): seq<T>
      reads this
    {
      pushedback + chain
    }

    ghost predicate Valid()
      reads this
    {
      Sound(frames, nextId, entries, madeAt, intact, made, Contents(), eoftok)
    }

    /** `TokStreamEnhancer(*tokstreams, lasttok=lasttok, eoftok=eoftok)`. */
    constructor (tokstreams: seq<seq<T>>, lasttok: Option<T>, eof: Option<T>)
      ensures Valid()
      ensures Contents() == Chain(tokstreams) + (if lasttok.Some? then [lasttok.value] else [])
      ensures eoftok == eof && pushedback == [] && frames == [] && !iterating
    {
      chain := Chain(tokstreams) + (if lasttok.Some? then [lasttok.value] else []);
      eoftok := eof;
      pushedback := [];
      frames := [];
      nextId := 0;
      iterating := false;
      entries, madeAt, intact, made := [], [], [], 0;
    }

    /**
     * `peektoks(n)`: the next `n` items, not consumed; None where it raises
     * `StopIteration`. Items are moved from the sources to `pushedback`
     * (with end-of-file tokens past the end) until it holds `n`.
     */
    method PeekToks(n: nat) returns (r: Option<seq<T>>)
      requires Valid()
      modifies this
      ensures Valid()
      ensures r == Window(old(Contents()), eoftok, n)
      ensures Contents() == Extend(old(Contents()), eoftok, n)
      ensures r.Some? ==> n <= |pushedback| && pushedback[..n] == r.value
      ensures frames == old(frames) && nextId == old(nextId) && iterating == old(iterating)
      ensures entries == old(entries) && intact == old(intact)
    {
      ghost var c0 := Contents();
      while |pushedback| < n
        invariant Valid()
        invariant frames == old(frames) && nextId == old(nextId) && iterating == old(iterating)
        invariant entries == old(entries) && intact == old(intact)
        invariant |pushedback| > n ==> |pushedback| <= |c0|
        invariant Contents() == Extend(c0, eoftok, |pushedback|)
        decreases n - |pushedback|
      {
        ghost var c := Contents();
        if chain != [] {
          PeekMove(c0, eoftok, pushedback, chain);
          pushedback, chain := pushedback + [chain[0]], chain[1..];
          assert Contents() == c;
        } else if eoftok.None? {
          PeekFail(c0, pushedback, n);
          return None;
        } else {
          SoundGrow(frames, nextId, entries, madeAt, intact, made, c, eoftok);
          GrowStep(c0, eoftok, |pushedback|);
          pushedback := pushedback + [eoftok.value];
          made := made + 1;
          assert Contents() == c + [eoftok.value];
        }
      }
      PeekDone(c0, eoftok, pushedback, chain, n);
      r := Some(pushedback[..n]);
    }

    /** `peektok()`: the next item, not consumed. */
    method PeekTok() returns (r: Option<T>)
      requires Valid()
      modifies this
      ensures Valid()
      ensures r == Head(old(Contents()), eoftok)
      ensures Contents() == Extend(old(Contents()), eoftok, 1)
      ensures r.Some? ==> pushedback != [] && pushedback[0] == r.value
      ensures frames == old(frames) && nextId == old(nextId) && iterating == old(iterating)
      ensures entries == old(entries) && intact == old(intact)
    {
      HeadIsWindowOne(Contents(), eoftok);
      var w := PeekToks(1);
      if w.None? {
        r := None;
      } else {
        r := Some(w.value[0]);
      }
    }

    /** `at_eof()`: peeking fails, or shows the end-of-file token. */
    method AtEof() returns (b: bool)
      requires Valid()
      modifies this
      ensures Valid()
      ensures b <==> Head(old(Contents()), eoftok) == eoftok
      ensures Contents() == Extend(old(Contents()), eoftok, 1)
      ensures frames == old(frames) && nextId == old(nextId) && iterating == old(iterating)
      ensures entries == old(entries) && intact == old(intact)
    {
      var t := PeekTok();
      b := t == eoftok;
    }

    /**
     * `peekif(pred, eofmatch=...)`: `eofmatch` (when given) at end of file,
     * else the next item if `pred` holds of it, else Python's None (here
     * `Some(None)`); None where peeking raises `StopIteration`.
     */
    method PeekIf(pred: T -> bool, eofmatch: Option<Option<T>>) returns (r: Option<Option<T>>)
      requires Valid()
      modifies this
      ensures Valid()
      ensures var h := Head(old(Contents()), eoftok);
        r == if eofmatch.Some? && h == eoftok then Some(eofmatch.value)
             else if h.None? then None
             else Some(if pred(h.value) then h else None)
      ensures Contents() == Extend(old(Contents()), eoftok, 1)
      ensures frames == old(frames) && nextId == old(nextId) && iterating == old(iterating)
      ensures entries == old(entries) && intact == old(intact)
    {
      ExtendIdempotent(Contents(), eoftok);
      if eofmatch.Some? {
        var e := AtEof();
        if e {
          return Some(eofmatch.value);
        }
      }
      var t := PeekTok();
      if t.None? {
        r := None;
      } else {
        r := Some(if pred(t.value) then t else None);
      }
    }

    /** `gettok()`: the next item, consumed and logged in the innermost open frame. */
    method GetTok() returns (r: Option<T>)
      requires Valid()
      modifies this
      ensures Valid()
      ensures r == Head(old(Contents()), eoftok)
      ensures r.None? ==> Contents() == old(Contents()) && frames == old(frames)
      ensures r.Some? ==> Contents() == Extend(old(Contents()), eoftok, 1)[1..]
      ensures r.Some? ==> frames == Logged(old(frames), [r.value])
      ensures nextId == old(nextId) && iterating == old(iterating)
      ensures entries == old(entries) && intact == old(intact)
    {
      r := PeekTok();
      if r.None? {
        ExtendNone(old(Contents()), 1);
        return;
      }
      ghost var c := Contents();
      SoundGet(frames, nextId, entries, madeAt, intact, made, c, eoftok);
      pushedback := pushedback[1..];
      frames := Logged(frames, [r.value]);
      assert Contents() == c[1..];
    }

    /** `gettoks(n)`: n calls of `gettok()`; where one raises, what was gotten stays consumed. */
    method GetToks(n: nat) returns (r: Option<seq<T>>)
      requires Valid()
      modifies this
      ensures Valid()
      ensures r == Window(old(Contents()), eoftok, n)
      ensures r.Some? ==> Contents() == Dropped(old(Contents()), eoftok, n)
      ensures r.Some? ==> frames == Logged(old(frames), r.value)
      ensures r.None? ==> Contents() == [] && frames == Logged(old(frames), old(Contents()))
      ensures nextId == old(nextId) && iterating == old(iterating)
      ensures entries == old(entries) && intact == old(intact)
    {
      ghost var c0 := Contents();
      var got: seq<T> := [];
      assert Dropped(c0, eoftok, 0) == c0;
      LoggedNothing(frames);
      for i := 0 to n
        invariant Valid()
        invariant Window(c0, eoftok, i) == Some(got)
        invariant Contents() == Dropped(c0, eoftok, i)
        invariant frames == Logged(old(frames), got)
        invariant nextId == old(nextId) && iterating == old(iterating)
        invariant entries == old(entries) && intact == old(intact)
      {
        GetStep(c0, eoftok, i);
        ghost var before := frames;
        var t := GetTok();
        if t.None? {
          GetFails(c0, eoftok, i, got);
          return None;
        }
        LoggedTwice(old(frames), got, t.value);
        got := got + [t.value];
      }
      r := Some(got);
    }

    /**
     * `ungettok(tok)` or `ungettok(bulk=bulk)`: false where it raises
     * `TypeError` (both given, or after `__iter__`).
     */
    method Unget(tok: Option<T>, bulk: Option<seq<T>>) returns (ok: bool)
      requires Valid() && (tok.Some? || bulk.Some?)
      modifies this
      ensures Valid()
      ensures ok <==> !old(iterating) && !(tok.Some? && bulk.Some?)
      ensures ok ==> Contents() == (if bulk.Some? then bulk.value else [tok.value]) + old(Contents())
      ensures !ok ==> Contents() == old(Contents()) && intact == old(intact)
      ensures ok && bulk == Some([]) ==> intact == old(intact)
      ensures frames == old(frames) && nextId == old(nextId) && iterating == old(iterating)
      ensures entries == old(entries)
    {
      if iterating || (tok.Some? && bulk.Some?) {
        return false;
      }
      ok := true;
      if bulk == Some([]) {
        // a zero-length bulk leaves the pushback list alone
        return;
      }
      ghost var c0 := Contents();
      if bulk.None? {
        pushedback := [tok.value] + pushedback;
      } else {
        pushedback := bulk.value + pushedback;
      }
      assert Contents() == (if bulk.Some? then bulk.value else [tok.value]) + c0;
      SoundDisturb(frames, nextId, entries, madeAt, intact, made, c0, Contents(), eoftok);
      intact := seq(|frames|, _ => false);
    }

    /** Entering `with tokmark() as ctx`: a new innermost frame, with an empty log. */
    method EnterMark() returns (ctx: nat)
      requires Valid()
      modifies this
      ensures Valid()
      ensures ctx == old(nextId) && nextId == ctx + 1
      ensures frames == old(frames) + [Frame(ctx, [], false)]
      ensures entries == old(entries) + [Contents()] && intact == old(intact) + [true]
      ensures Contents() == old(Contents()) && iterating == old(iterating)
    {
      SoundEnter(frames, nextId, entries, madeAt, intact, made, Contents(), eoftok);
      ctx := nextId;
      frames := frames + [Frame(ctx, [], false)];
      entries, madeAt, intact := entries + [Contents()], madeAt + [made], intact + [true];
      nextId := nextId + 1;
    }

    /**
     * `acceptmarks(ctx)`: accepts the frame of the handle `ctx`, or the
     * innermost one when no handle is given; false where there is none to
     * take (`None.accepted` raises). A handle whose frame has closed changes
     * nothing that is read again.
     */
    method AcceptMarks(ctx: Option<nat>) returns (ok: bool)
      requires Valid()
      modifies this
      ensures Valid()
      ensures ok <==> ctx.Some? || old(frames) != []
      ensures var j := if ctx.Some? then FrameAt(old(frames), ctx.value)
                       else if old(frames) != [] then Some(|old(frames)| - 1) else None;
        frames == if j.Some? then old(frames)[j.value := old(frames)[j.value].(accepted := true)]
                  else old(frames)
      ensures Contents() == old(Contents()) && nextId == old(nextId) && iterating == old(iterating)
      ensures entries == old(entries) && intact == old(intact)
    {
      var j: Option<nat>;
      if ctx.Some? {
        j := FrameAt(frames, ctx.value);
        ok := true;
      } else if frames != [] {
        j := Some(|frames| - 1);
        ok := true;
      } else {
        j := None;
        ok := false;
      }
      if j.Some? {
        SoundAccept(frames, nextId, entries, madeAt, intact, made, Contents(), eoftok, j.value);
        frames := frames[j.value := frames[j.value].(accepted := true)];
      }
    }

    /**
     * Leaving the `with tokmark()` block. An accepted frame's items stay
     * consumed and join the enclosing frame's log; an unaccepted one's are
     * pushed back in front, in order, false where that pushback raises
     * `TypeError` (after `__iter__`), which leaves the frame open.
     */
    method ExitMark() returns (ok: bool)
      requires Valid() && frames != []
      modifies this
      ensures Valid()
      ensures var k := |old(frames)| - 1; var f := old(frames)[k];
        f.accepted ==>
          ok && Contents() == old(Contents()) && frames == if k > 0 then Merged(old(frames)) else []
      ensures var k := |old(frames)| - 1; var f := old(frames)[k];
        !f.accepted && old(iterating) ==>
          !ok && frames == old(frames) && Contents() == old(Contents())
      ensures var k := |old(frames)| - 1; var f := old(frames)[k];
        !f.accepted && !old(iterating) ==>
          ok && frames == old(frames)[..k] && Contents() == f.log + old(Contents())
      // the restoration property: an undisturbed, unaccepted frame puts the stream back
      ensures ok && !old(frames)[|old(frames)| - 1].accepted && old(intact[|frames| - 1]) ==>
        Contents() == old(entries[|frames| - 1] + Pad(eoftok, made - madeAt[|frames| - 1]))
      ensures made == old(made)
      ensures nextId == old(nextId) && iterating == old(iterating)
    {
      if frames[|frames| - 1].accepted {
        CloseAccepted();
        ok := true;
      } else if iterating {
        ok := false;
      } else {
        Unwind();
        ok := true;
      }
    }

    /** The accepted innermost frame closes; its log joins the enclosing frame's. */
    method CloseAccepted()
      requires Valid() && frames != [] && frames[|frames| - 1].accepted
      modifies this
      ensures Valid()
      ensures var k := |old(frames)| - 1; frames == if k > 0 then Merged(old(frames)) else []
      ensures Contents() == old(Contents()) && made == old(made)
      ensures nextId == old(nextId) && iterating == old(iterating)
    {
      var k := |frames| - 1;
      ghost var c := Contents();
      if k > 0 {
        SoundMerge(frames, nextId, entries, madeAt, intact, made, c, eoftok);
        frames := Merged(frames);
      } else {
        frames := [];
      }
      entries, madeAt, intact := entries[..k], madeAt[..k], intact[..k];
      assert Contents() == c;
    }

    /** The unaccepted innermost frame closes; its log is pushed back in front. */
    method Unwind()
      requires Valid() && frames != []
      modifies this
      ensures Valid()
      ensures var k := |old(frames)| - 1;
        frames == old(frames)[..k] && Contents() == old(frames)[k].log + old(Contents())
      ensures old(intact[|frames| - 1]) ==>
        Contents() == old(entries[|frames| - 1] + Pad(eoftok, made - madeAt[|frames| - 1]))
      ensures made == old(made) && nextId == old(nextId) && iterating == old(iterating)
    {
      var k := |frames| - 1;
      var f := frames[k];
      ghost var c := Contents();
      ghost var en, ma, it := entries[..k], madeAt[..k], intact[..k];
      SoundRestore(frames, nextId, entries, madeAt, intact, made, c, eoftok);
      if intact[k] {
        SoundTop(frames, nextId, entries, madeAt, intact, made, c, eoftok);
      }
      if f.log != [] {
        pushedback := f.log + pushedback;
      }
      frames := frames[..k];
      entries, madeAt, intact := en, ma, it;
      assert Contents() == f.log + c;
    }

    /** `__iter__()`: false where an end-of-file token makes it raise `TypeError`. */
    method Iter() returns (ok: bool)
      requires Valid()
      modifies this
      ensures Valid()
      ensures ok <==> eoftok.None?
      ensures iterating == (old(iterating) || ok)
      ensures Contents() == old(Contents()) && frames == old(frames)
      ensures nextId == old(nextId) && entries == old(entries) && intact == old(intact)
    {
      ok := eoftok.None?;
      if ok {
        iterating := true;
      }
    }

    /**
     * `__next__()`: the next pushed-back item, else the next source item;
     * None is `StopIteration`. It ignores the end-of-file token and logs nothing.
     */
    method Next() returns (r: Option<T>)
      requires Valid()
      modifies this
      ensures Valid()
      ensures r == Head(old(Contents()), None)
      ensures r.Some? ==> Contents() == old(Contents())[1..]
      ensures r.None? ==> Contents() == old(Contents())
      ensures frames == old(frames) && iterating == old(iterating)
      ensures nextId == old(nextId) && entries == old(entries)
      ensures r.None? ==> intact == old(intact)
    {
      ghost var c0 := Contents();
      if pushedback != [] {
        r := Some(pushedback[0]);
        pushedback := pushedback[1..];
      } else if chain != [] {
        r := Some(chain[0]);
        chain := chain[1..];
      } else {
        return None;
      }
      SoundDisturb(frames, nextId, entries, madeAt, intact, made, c0, Contents(), eoftok);
      intact := seq(|frames|, _ => false);
    }
  }

  /**
   * The nested-mark example: the inner frame is accepted, the outer one is
   * not, so everything gotten in both comes back, in order.
   */
  method MarkExample() returns (t1: Option<int>, t2: Option<int>, t3: Option<int>,
                                t4: Option<int>, t5: Option<int>, t6: Option<int>)
    ensures t1 == Some(1) && t2 == Some(2) && t3 == Some(3)
    ensures t4 == t1 && t5 == t2 && t6 == t3
  {
    assert Chain([[1], [2], [3, 4, 5]]) == [1, 2, 3, 4, 5] by {
      assert Chain([[3, 4, 5]]) == [3, 4, 5] + Chain([]);
      assert Chain([[2], [3, 4, 5]]) == [2] + Chain([[3, 4, 5]]);
    }
    var foo := new TokStream([[1], [2], [3, 4, 5]], None, None);
    var ctx;
    t1, t2, ctx := MarkExampleInner(foo);
    ExtendNone(foo.Contents(), 1);
    t3 := foo.GetTok();
    assert t3 == Some(3);
    LoggedLast([], Frame(ctx, [1, 2], false), [3]);
    assert [1, 2] + [3] == [1, 2, 3];
    assert foo.Contents() == [4, 5];
    assert foo.frames == [Frame(ctx, [1, 2, 3], false)];
    var ok := foo.ExitMark();
    assert foo.Contents() == [1, 2, 3, 4, 5];
    ExtendNone(foo.Contents(), 1);
    t4 := foo.GetTok();
    ExtendNone(foo.Contents(), 1);
    t5 := foo.GetTok();
    ExtendNone(foo.Contents(), 1);
    t6 := foo.GetTok();
  }

  /** The first part of the example: the outer mark, one get, and the accepted inner mark. */
  method MarkExampleInner(foo: TokStream<int>) returns (t1: Option<int>, t2: Option<int>, ctx: nat)
    requires foo.Valid() && foo.Contents() == [1, 2, 3, 4, 5] && foo.frames == []
    requires foo.eoftok == None && !foo.iterating
    modifies foo
    ensures foo.Valid() && foo.Contents() == [3, 4, 5] && foo.frames == [Frame(ctx, [1, 2], false)]
    ensures !foo.iterating && t1 == Some(1) && t2 == Some(2)
  {
    ctx := foo.EnterMark();
    ExtendNone(foo.Contents(), 1);
    t1 := foo.GetTok();
    assert t1 == Some(1);
    LoggedLast([], Frame(ctx, [], false), [1]);
    assert [] + [1] == [1];
    assert foo.Contents() == [2, 3, 4, 5];
    var f1 := Frame(ctx, [1], false);
    assert foo.frames == [f1];
    var ctx2 := foo.EnterMark();
    ExtendNone(foo.Contents(), 1);
    t2 := foo.GetTok();
    assert t2 == Some(2);
    LoggedLast([f1], Frame(ctx2, [], false), [2]);
    assert [] + [2] == [2];
    assert foo.Contents() == [3, 4, 5];
    var f2 := Frame(ctx2, [2], false);
    assert foo.frames == [f1, f2];
    var ok := foo.AcceptMarks(Some(ctx2));
    assert foo.frames == [f1, f2.(accepted := true)];
    assert Merged([f1, f2.(accepted := true)]) == [Frame(ctx, [1, 2], false)] by {
      assert [1] + [2] == [1, 2];
    }
    ok := foo.ExitMark();
  }

  /** One item moved from the sources to the pushback list leaves the stream as it was. */
  lemma PeekMove<T>(s: seq<T>, eof: Option<T>, pb: seq<T>, ch: seq<T>)
    requires ch != [] && pb + ch == Extend(s, eof, |pb|)
    ensures (pb + [ch[0]]) + ch[1..] == Extend(s, eof, |pb| + 1)
  {
    assert |pb| < |s|;
    assert (pb + [ch[0]]) + ch[1..] == pb + ch;
  }

  /** Without an end-of-file token, peeking past the end fails and leaves the stream. */
  lemma PeekFail<T>(s: seq<T>, pb: seq<T>, n: nat)
    requires pb + [] == Extend(s, None, |pb|) && |pb| < n
    ensures Window(s, None, n) == None && pb + [] == Extend(s, None, n)
  {
    ExtendNone(s, |pb|);
    ExtendNone(s, n);
    assert pb == s;
  }

  /** Once `n` items are pushed back, they are the answer of the peek. */
  lemma PeekDone<T>(s: seq<T>, eof: Option<T>, pb: seq<T>, ch: seq<T>, n: nat)
    requires pb + ch == Extend(s, eof, |pb|) && n <= |pb| && (|pb| > n ==> |pb| <= |s|)
    ensures Window(s, eof, n) == Some(pb[..n]) && pb + ch == Extend(s, eof, n)
  {
    ExtendHolds(s, eof, n);
    assert pb[..n] == (pb + ch)[..n];
  }

  /** One more explicit end-of-file token, when the stream is exhausted. */
  lemma GrowStep<T>(s: seq<T>, eof: Option<T>, k: nat)
    requires eof.Some? && |Extend(s, eof, k)| == k
    ensures Extend(s, eof, k) + [eof.value] == Extend(s, eof, k + 1)
  {
    if k > |s| {
      assert Pad(eof, k + 1 - |s|) == Pad(eof, k - |s|) + [eof.value];
    } else {
      assert Pad(eof, 1) == [] + [eof.value];
    }
  }

  /** Without an end-of-file token, a get fails only once the whole stream is logged. */
  lemma GetFails<T>(s: seq<T>, eof: Option<T>, k: nat, got: seq<T>)
    requires Window(s, eof, k) == Some(got) && Head(Dropped(s, eof, k), eof).None?
    ensures Dropped(s, eof, k) == [] && got == s && eof.None?
  {
    ExtendNone(s, k);
  }

  lemma LoggedLast<T>(fs: seq<Frame<T>>, f: Frame<T>, ts: seq<T>)
    ensures Logged(fs + [f], ts) == fs + [f.(log := f.log + ts)]
  {
    assert (fs + [f])[..|fs|] == fs;
  }

  lemma LoggedNothing<T>(fs: seq<Frame<T>>)
    ensures Logged(fs, []) == fs
  {
    if fs != [] {
      var k := |fs| - 1;
      assert fs[k].(log := fs[k].log + []) == fs[k];
      assert fs[..k] + [fs[k]] == fs;
    }
  }

  lemma LoggedTwice<T>(fs: seq<Frame<T>>, a: seq<T>, t: T)
    ensures Logged(Logged(fs, a), [t]) == Logged(fs, a + [t])
  {
    if fs != [] {
      var k := |fs| - 1;
      assert fs[k].log + a + [t] == fs[k].log + (a + [t]);
    }
  }
}
