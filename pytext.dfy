/** The handful of Python `str` operations that the report parser relies on:
    `str.isspace`, `str.startswith`, the substring test `sub in s`,
    `str.strip()` and `str.split()` with no separator. */
module PyText {

  /** The characters Python's `str.isspace()` accepts. `str.strip()` and
      `str.split()` without arguments use exactly this set. */
  predicate IsSpace(c: char) {
    || c == ' '
    || '\t' <= c <= '\r'
    || '\U{1c}' <= c <= '\U{1f}'
    || c == '\U{85}' || c == '\U{a0}' || c == '\U{1680}'
    || '\U{2000}' <= c <= '\U{200a}'
    || c == '\U{2028}' || c == '\U{2029}' || c == '\U{202f}' || c == '\U{205f}'
    || c == '\U{3000}'
  }

  /** Every character of `s` is white space (vacuously so for ""). */
  predicate AllSpace(s: string) {
    forall k :: 0 <= k < |s| ==> IsSpace(s[k])
  }

  /** `s.startswith(prefix)` */
  predicate StartsWith(s: string, prefix: string) {
    |prefix| <= |s| && s[..|prefix|] == prefix
  }

  /** `sub` occurs in `s` starting at index `i`. */
  predicate OccursAt(s: string, sub: string, i: int) {
    0 <= i <= |s| - |sub| && s[i..i + |sub|] == sub
  }

  /** `sub in s`: some window of `s` equals `sub` (see `ContainsIsOccurrence`). */
  predicate Contains(s: string, sub: string)
    decreases |s|
  {
    |sub| <= |s| && (s[..|sub|] == sub || Contains(s[1..], sub))
  }

  /** The substring test holds exactly when `sub` occurs somewhere in `s`. */
  lemma {:induction false} ContainsIsOccurrence(s: string, sub: string)
    ensures Contains(s, sub) <==> exists i :: OccursAt(s, sub, i)
    decreases |s|
  {
    if |sub| <= |s| {
      if s[..|sub|] == sub {
        assert OccursAt(s, sub, 0);
      } else {
        ContainsIsOccurrence(s[1..], sub);
        if i :| OccursAt(s[1..], sub, i) {
          assert OccursAt(s, sub, i + 1);
        }
        if i :| OccursAt(s, sub, i) {
          assert i != 0;
          assert OccursAt(s[1..], sub, i - 1);
        }
      }
    }
  }

  /** `s.lstrip()` */
  function TrimStart(s: string): (r: string)
    ensures |r| <= |s| && r == s[|s| - |r|..]
    ensures forall k :: 0 <= k < |s| - |r| ==> IsSpace(s[k])
    ensures r != [] ==> !IsSpace(r[0])
  {
    if s != [] && IsSpace(s[0]) then
      var r := TrimStart(s[1..]);
      assert s[1..][|s| - 1 - |r|..] == s[|s| - |r|..];
      assert forall k :: 1 <= k < |s| - |r| ==> s[k] == s[1..][k - 1];
      r
    else s
  }

  /** `s.rstrip()` */
  function TrimEnd(s: string): (r: string)
    ensures |r| <= |s| && r == s[..|r|]
    ensures forall k :: |r| <= k < |s| ==> IsSpace(s[k])
    ensures r != [] ==> !IsSpace(r[|r| - 1])
  {
    if s != [] && IsSpace(s[|s| - 1]) then
      var r := TrimEnd(s[..|s| - 1]);
      assert s[..|s| - 1][..|r|] == s[..|r|];
      r
    else s
  }

  /** `s.strip()`: `s` without its leading and trailing white space. */
  function Strip(s: string): string {
    TrimEnd(TrimStart(s))
  }

  /** The stripped string is empty exactly for a blank string; otherwise it
      starts and ends with a non-space character. */
  lemma StripBlank(s: string)
    ensures Strip(s) == [] <==> AllSpace(s)
    ensures Strip(s) != [] ==> !IsSpace(Strip(s)[0]) && !IsSpace(Strip(s)[|Strip(s)| - 1])
  {
  }

  /** `r` is `s[i..i + |r|]`, and only white space comes before and after it. */
  predicate PaddedAt(s: string, r: string, i: nat) {
    && i + |r| <= |s|
    && r == s[i..i + |r|]
    && (forall k :: 0 <= k < i ==> IsSpace(s[k]))
    && (forall k :: i + |r| <= k < |s| ==> IsSpace(s[k]))
  }

  /** The stripped string is the slice of `s` left once a white-space
      prefix and a white-space suffix are cut off; with `StripBlank`, this
      pins `strip()` down exactly. */
  lemma StripSlice(s: string)
    ensures exists i: nat :: PaddedAt(s, Strip(s), i)
  {
    var t := TrimStart(s);
    PaddedWithin(s, t, TrimEnd(t));
    assert PaddedAt(s, Strip(s), |s| - |t|);
  }

  /** A white-space-free cut from the end of a white-space-free cut from
      the start of `s` is padded in `s` by white space. */
  lemma PaddedWithin(s: string, t: string, r: string)
    requires |t| <= |s| && t == s[|s| - |t|..]
    requires forall k :: 0 <= k < |s| - |t| ==> IsSpace(s[k])
    requires |r| <= |t| && r == t[..|r|]
    requires forall k :: |r| <= k < |t| ==> IsSpace(t[k])
    ensures PaddedAt(s, r, |s| - |t|)
  {
    var i := |s| - |t|;
    forall k | i + |r| <= k < |s| ensures IsSpace(s[k]) {
      assert t[k - i] == s[k];
    }
    assert s[i..i + |r|] == r by {
      forall k | 0 <= k < |r| ensures s[i..i + |r|][k] == r[k] {
        assert r[k] == t[k] == s[i + k];
      }
    }
  }

  /** A token of `str.split()`: non-empty and free of white space. */
  predicate IsWord(t: string) {
    t != [] && forall k :: 0 <= k < |t| ==> !IsSpace(t[k])
  }

  /** Length of the run of non-space characters that `s` starts with. */
  function WordLength(s: string): (n: nat)
    ensures n <= |s|
    ensures forall k :: 0 <= k < n ==> !IsSpace(s[k])
    ensures n < |s| ==> IsSpace(s[n])
  {
    if s == [] || IsSpace(s[0]) then 0 else 1 + WordLength(s[1..])
  }

  /** The non-space characters of `s`, in order. */
  function NonSpace(s: string): string {
    if s == [] then [] else (if IsSpace(s[0]) then [] else [s[0]]) + NonSpace(s[1..])
  }

  /** The concatenation of a sequence of strings. */
  function Concat(ts: seq<string>): string {
    if ts == [] then [] else ts[0] + Concat(ts[1..])
  }

  /** `s.split()`: the maximal runs of non-space characters of `s`, in order
      (see `SplitShape` and `SplitRuns`). */
  function Split(s: string): seq<string>
    decreases |s|
  {
    if s == [] then []
    else if IsSpace(s[0]) then Split(s[1..])
    else
      var n := WordLength(s);
      [s[..n]] + Split(s[n..])
  }

  /** Every token is non-empty and free of white space, the tokens together
      hold exactly the non-space characters of `s` in order, and there are
      none exactly when `s` is blank. */
  lemma {:induction false} SplitShape(s: string)
    ensures forall t :: t in Split(s) ==> IsWord(t)
    ensures Concat(Split(s)) == NonSpace(s)
    ensures Split(s) == [] <==> AllSpace(s)
    decreases |s|
  {
    if s == [] {
    } else if IsSpace(s[0]) {
      SplitShape(s[1..]);
      assert AllSpace(s) <==> AllSpace(s[1..]);
    } else {
      var n := WordLength(s);
      var rest := Split(s[n..]);
      SplitShape(s[n..]);
      NonSpaceOfWord(s, n);
      assert IsWord(s[..n]);
      assert Concat([s[..n]] + rest) == s[..n] + Concat(rest) by {
        assert ([s[..n]] + rest)[1..] == rest;
      }
      assert !AllSpace(s) by { assert !IsSpace(s[0]); }
    }
  }

  /** `s[a..b]` is a maximal run of non-space characters of `s`: it is not
      empty, holds no white space, and is bounded on each side by white
      space or an end of `s`. */
  predicate IsRun(s: string, a: nat, b: nat) {
    && a < b <= |s|
    && (a == 0 || IsSpace(s[a - 1]))
    && (b == |s| || IsSpace(s[b]))
    && forall k :: a <= k < b ==> !IsSpace(s[k])
  }

  /** Run `i` of `runs` is a maximal run of `s` and spells token `i`. */
  predicate RunTokens(s: string, tokens: seq<string>, runs: seq<(nat, nat)>) {
    && |runs| == |tokens|
    && forall i :: 0 <= i < |runs| ==>
         IsRun(s, runs[i].0, runs[i].1) && tokens[i] == s[runs[i].0..runs[i].1]
  }

  /** Each run ends before the next one starts. */
  predicate Ascending(runs: seq<(nat, nat)>) {
    forall i :: 0 < i < |runs| ==> runs[i - 1].1 < runs[i].0
  }

  /** Index `k` lies in one of the runs. */
  predicate Covered(runs: seq<(nat, nat)>, k: int) {
    exists i :: 0 <= i < |runs| && runs[i].0 <= k < runs[i].1
  }

  /** Every non-space character of `s` from index `d` on lies in a run. */
  predicate CoversFrom(s: string, runs: seq<(nat, nat)>, d: nat) {
    forall k :: d <= k < |s| && !IsSpace(s[k]) ==> Covered(runs, k)
  }

  /** `runs` are the maximal runs of `s` that `split()` yields as `tokens`,
      left to right, and every non-space character lies in one of them. */
  predicate RunsOf(s: string, tokens: seq<string>, runs: seq<(nat, nat)>) {
    RunTokens(s, tokens, runs) && Ascending(runs) && CoversFrom(s, runs, 0)
  }

  /** Where `split()` breaks `s`: token `i` is the maximal run
      `s[runs[i].0..runs[i].1]`, the runs follow one another from left to
      right with white space between them, and every non-space character of
      `s` lies in one of them. */
  lemma {:induction false} SplitRuns(s: string) returns (runs: seq<(nat, nat)>)
    ensures |runs| == |Split(s)|
    ensures forall i :: 0 <= i < |runs| ==>
      IsRun(s, runs[i].0, runs[i].1) && Split(s)[i] == s[runs[i].0..runs[i].1]
    ensures forall i :: 0 < i < |runs| ==> runs[i - 1].1 < runs[i].0
    ensures forall k :: 0 <= k < |s| && !IsSpace(s[k]) ==>
      exists i :: 0 <= i < |runs| && runs[i].0 <= k < runs[i].1
  {
    runs := RunsFrom(s);
    assert RunTokens(s, Split(s), runs) && Ascending(runs);
    forall k | 0 <= k < |s| && !IsSpace(s[k])
      ensures exists i :: 0 <= i < |runs| && runs[i].0 <= k < runs[i].1
    {
      assert Covered(runs, k);
    }
  }

  /** The runs of `s`, found by recursion on `s` alongside `Split`. */
  lemma {:induction false} RunsFrom(s: string) returns (runs: seq<(nat, nat)>)
    ensures RunsOf(s, Split(s), runs)
    decreases |s|
  {
    if s == [] {
      runs := [];
    } else if IsSpace(s[0]) {
      var tail := RunsFrom(s[1..]);
      runs := RunsAfterSpace(s, tail);
    } else {
      var n := WordLength(s);
      var tail := RunsFrom(s[n..]);
      runs := RunsAfterWord(s, n, tail);
    }
  }

  /** The runs of `s` when it starts with white space. */
  lemma RunsAfterSpace(s: string, tail: seq<(nat, nat)>) returns (runs: seq<(nat, nat)>)
    requires s != [] && IsSpace(s[0]) && RunsOf(s[1..], Split(s[1..]), tail)
    ensures RunsOf(s, Split(s), runs)
  {
    runs := Shifted(tail, 1);
    ShiftedTokens(s, 1, Split(s[1..]), tail);
    ShiftedAscending(tail, 1);
    ShiftedCover(s, 1, tail);
    assert Split(s) == Split(s[1..]);
  }

  /** The runs of `s` when it starts with a word of `n` characters. */
  lemma RunsAfterWord(s: string, n: nat, tail: seq<(nat, nat)>) returns (runs: seq<(nat, nat)>)
    requires s != [] && !IsSpace(s[0]) && n == WordLength(s)
    requires RunsOf(s[n..], Split(s[n..]), tail)
    ensures RunsOf(s, Split(s), runs)
  {
    var tokens := Split(s[n..]);
    var later := Shifted(tail, n);
    ShiftedTokens(s, n, tokens, tail);
    ShiftedAscending(tail, n);
    ShiftedCover(s, n, tail);
    assert IsRun(s, 0, n);
    runs := [(0, n)] + later;
    ConsTokens(s, n, tokens, later);
    ConsAscending(n, later);
    ConsCover(s, n, later);
    assert Split(s) == [s[..n]] + tokens;
  }

  /** The runs of `s[d..]`, moved back into place in `s`, are runs of `s`
      spelling the same tokens, as the cut at `d` falls next to white space
      or at the end. Unless white space precedes the cut, they all start
      after it. */
  lemma ShiftedTokens(s: string, d: nat, tokens: seq<string>, tail: seq<(nat, nat)>)
    requires 0 < d <= |s| && RunTokens(s[d..], tokens, tail)
    requires IsSpace(s[d - 1]) || d == |s| || IsSpace(s[d])
    ensures RunTokens(s, tokens, Shifted(tail, d))
    ensures !IsSpace(s[d - 1]) ==> forall i :: 0 <= i < |tail| ==> d < Shifted(tail, d)[i].0
  {
    var r := Shifted(tail, d);
    forall i | 0 <= i < |tail|
      ensures IsRun(s, r[i].0, r[i].1) && tokens[i] == s[r[i].0..r[i].1]
      ensures !IsSpace(s[d - 1]) ==> d < r[i].0
    {
      RunShift(s, d, tail[i].0, tail[i].1);
    }
  }

  /** Moving the runs keeps their order. */
  lemma ShiftedAscending(tail: seq<(nat, nat)>, d: nat)
    requires Ascending(tail)
    ensures Ascending(Shifted(tail, d))
  {
    var r := Shifted(tail, d);
    forall i | 0 < i < |r| ensures r[i - 1].1 < r[i].0 {
      assert r[i - 1].1 == tail[i - 1].1 + d && r[i].0 == tail[i].0 + d;
    }
  }

  /** The runs of `s[d..]`, moved back into place, cover the non-space
      characters of `s` from `d` on. */
  lemma ShiftedCover(s: string, d: nat, tail: seq<(nat, nat)>)
    requires d <= |s| && CoversFrom(s[d..], tail, 0)
    ensures CoversFrom(s, Shifted(tail, d), d)
  {
    var r := Shifted(tail, d);
    forall k | d <= k < |s| && !IsSpace(s[k]) ensures Covered(r, k) {
      assert s[d..][k - d] == s[k];
      assert Covered(tail, k - d);
      var i :| 0 <= i < |tail| && tail[i].0 <= k - d < tail[i].1;
      assert r[i].0 <= k < r[i].1;
    }
  }

  /** A leading run `s[..n]` put before runs that spell `tokens`. */
  lemma ConsTokens(s: string, n: nat, tokens: seq<string>, later: seq<(nat, nat)>)
    requires IsRun(s, 0, n) && RunTokens(s, tokens, later)
    ensures RunTokens(s, [s[..n]] + tokens, [(0, n)] + later)
  {
    var runs := [(0, n)] + later;
    var all := [s[..n]] + tokens;
    forall i | 0 <= i < |runs|
      ensures IsRun(s, runs[i].0, runs[i].1) && all[i] == s[runs[i].0..runs[i].1]
    {
      if i > 0 {
        assert runs[i] == later[i - 1] && all[i] == tokens[i - 1];
      }
    }
  }

  /** A leading run ending at `n` put before ascending runs that start after `n`. */
  lemma ConsAscending(n: nat, later: seq<(nat, nat)>)
    requires Ascending(later) && forall i :: 0 <= i < |later| ==> n < later[i].0
    ensures Ascending([(0, n)] + later)
  {
    var runs := [(0, n)] + later;
    forall i | 0 < i < |runs| ensures runs[i - 1].1 < runs[i].0 {
      assert runs[i] == later[i - 1];
      if i > 1 { assert runs[i - 1] == later[i - 2]; }
    }
  }

  /** The leading run `s[..n]` covers what the later runs leave. */
  lemma ConsCover(s: string, n: nat, later: seq<(nat, nat)>)
    requires CoversFrom(s, later, n)
    ensures CoversFrom(s, [(0, n)] + later, 0)
  {
    var runs := [(0, n)] + later;
    forall k | 0 <= k < |s| && !IsSpace(s[k]) ensures Covered(runs, k) {
      if k < n {
        assert runs[0].0 <= k < runs[0].1;
      } else {
        assert Covered(later, k);
        var i :| 0 <= i < |later| && later[i].0 <= k < later[i].1;
        assert runs[i + 1] == later[i];
      }
    }
  }

  /** The runs `rs`, each moved `d` places to the right. */
  function Shifted(rs: seq<(nat, nat)>, d: nat): (r: seq<(nat, nat)>)
    ensures |r| == |rs|
    ensures forall i :: 0 <= i < |rs| ==> r[i] == (rs[i].0 + d, rs[i].1 + d)
  {
    seq(|rs|, i requires 0 <= i < |rs| => (rs[i].0 + d, rs[i].1 + d))
  }

  /** A run of `s[d..]` that does not start right after a non-space
      character of `s` is a run of `s`, `d` places further on. */
  lemma RunShift(s: string, d: nat, a: nat, b: nat)
    requires d <= |s| && IsRun(s[d..], a, b)
    requires a == 0 ==> d == 0 || IsSpace(s[d - 1])
    ensures IsRun(s, a + d, b + d) && s[d..][a..b] == s[a + d..b + d]
  {
    assert forall k :: a <= k < b ==> s[d..][k] == s[k + d];
    if a > 0 { assert s[d..][a - 1] == s[a + d - 1]; }
    if b < |s| - d { assert s[d..][b] == s[b + d]; }
  }

  /** Splitting off a leading word of `n` non-space characters. */
  lemma {:induction false} NonSpaceOfWord(s: string, n: nat)
    requires n <= |s|
    requires forall k :: 0 <= k < n ==> !IsSpace(s[k])
    ensures NonSpace(s) == s[..n] + NonSpace(s[n..])
  {
    if n > 0 {
      NonSpaceOfWord(s[1..], n - 1);
      assert s[1..][..n - 1] == s[1..n];
      assert s[1..][n - 1..] == s[n..];
      assert [s[0]] + s[1..n] == s[..n];
    }
  }

  /** A run of non-space characters followed by white space or nothing is
      exactly one word long. */
  lemma WordLengthOf(w: string, rest: string)
    requires forall k :: 0 <= k < |w| ==> !IsSpace(w[k])
    requires rest == [] || IsSpace(rest[0])
    ensures WordLength(w + rest) == |w|
  {
    var s := w + rest;
    assert forall k :: 0 <= k < |w| ==> s[k] == w[k];
    assert rest != [] ==> s[|w|] == rest[0];
  }

  /** A single word splits into itself. */
  lemma SplitWord(w: string)
    requires IsWord(w)
    ensures Split(w) == [w]
  {
    WordLengthOf(w, []);
    assert w + [] == w;
    assert w[..|w|] == w && w[|w|..] == [];
  }

  /** Two words separated by the space at index `n` split into those two words. */
  lemma SplitPair(s: string, n: nat)
    requires n < |s| && IsWord(s[..n]) && s[n] == ' ' && IsWord(s[n + 1..])
    ensures Split(s) == [s[..n], s[n + 1..]]
  {
    assert s[..n] + s[n..] == s;
    WordLengthOf(s[..n], s[n..]);
    assert s[n..][1..] == s[n + 1..];
    SplitWord(s[n + 1..]);
  }

  /** A string that starts and ends with non-space characters is already stripped. */
  lemma StripUnpadded(s: string)
    requires s != [] && !IsSpace(s[0]) && !IsSpace(s[|s| - 1])
    ensures Strip(s) == s
  {
  }

  /** A string that contains `sub` contains `sub`'s first character. */
  lemma ContainsFirst(s: string, sub: string)
    requires sub != [] && Contains(s, sub)
    ensures sub[0] in s
  {
  }
}
