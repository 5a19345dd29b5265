/**
 * The two string operations the ledger's handlers depend on: Python's
 * `str.split()` with no separator (runs of whitespace separate tokens,
 * leading and trailing whitespace is dropped) and `str.lower()`.
 */
module Text {

  /** The characters `str.isspace()` accepts, which `str.split()` splits on. */
  predicate IsSpace(c: char) {
    var n := c as int;
    || n == 0x20 || (0x09 <= n <= 0x0D) || (0x1C <= n <= 0x1F)
    || n == 0x85 || n == 0xA0 || n == 0x1680 || (0x2000 <= n <= 0x200A)
    || n == 0x2028 || n == 0x2029 || n == 0x202F || n == 0x205F || n == 0x3000
  }

  /** A token as `split()` yields it: non-empty and free of whitespace. */
  predicate IsToken(w: string) {
    w != [] && forall i :: 0 <= i < |w| ==> !IsSpace(w[i])
  }

  /** The longest whitespace-free prefix of `s`. */
  function Word(s: string): (w: string)
    ensures w <= s
    ensures forall i :: 0 <= i < |w| ==> !IsSpace(w[i])
    ensures |w| < |s| ==> IsSpace(s[|w|])
  {
    if s == [] || IsSpace(s[0]) then [] else [s[0]] + Word(s[1..])
  }

  /** `s.split()`: the maximal whitespace-free runs of `s`, in order. */
  function Split(s: string): (ts: seq<string>)
    ensures forall i :: 0 <= i < |ts| ==> IsToken(ts[i])
    decreases |s|
  {
    if s == [] then []
    else if IsSpace(s[0]) then Split(s[1..])
    else
      var w := Word(s);
      [w] + Split(s[|w|..])
  }

  lemma {:induction false} WordOfToken(w: string, rest: string)
    requires IsToken(w)
    requires rest == [] || IsSpace(rest[0])
    ensures Word(w + rest) == w
    decreases |w|
  {
    var s := w + rest;
    assert s[0] == w[0];
    if |w| > 1 {
      assert s[1..] == w[1..] + rest;
      WordOfToken(w[1..], rest);
    } else {
      assert s[1..] == rest;
    }
  }

  lemma SplitOfToken(w: string, rest: string)
    requires IsToken(w)
    requires rest == [] || IsSpace(rest[0])
    ensures Split(w + rest) == [w] + Split(rest)
  {
    WordOfToken(w, rest);
    assert (w + rest)[|w|..] == rest;
  }

  /** Whitespace throughout (possibly empty). */
  predicate AllSpace(w: string) {
    forall i :: 0 <= i < |w| ==> IsSpace(w[i])
  }

  /** `seps[0] + ts[0] + seps[1] + ... + ts[n-1] + seps[n]`. */
  function Interleave(seps: seq<string>, ts: seq<string>): string
    requires |seps| == |ts| + 1
  {
    if ts == [] then seps[0] else seps[0] + ts[0] + Interleave(seps[1..], ts[1..])
  }

  /** Separators fit to split on: all whitespace, and those between two tokens not empty. */
  predicate Separators(seps: seq<string>, ts: seq<string>) {
    && |seps| == |ts| + 1
    && (forall i :: 0 <= i < |seps| ==> AllSpace(seps[i]))
    && (forall i :: 0 < i < |ts| ==> seps[i] != [])
  }

  lemma {:induction false} SplitSkipsSpace(w: string, rest: string)
    requires AllSpace(w)
    ensures Split(w + rest) == Split(rest)
    decreases |w|
  {
    if w != [] {
      assert (w + rest)[1..] == w[1..] + rest;
      SplitSkipsSpace(w[1..], rest);
    } else {
      assert w + rest == rest;
    }
  }

  /**
   * Every decomposition of a string into tokens and separating whitespace
   * is the one `split()` finds: its tokens are exactly `Split` of the string.
   */
  lemma {:induction false} SplitUnique(seps: seq<string>, ts: seq<string>)
    requires Separators(seps, ts)
    requires forall i :: 0 <= i < |ts| ==> IsToken(ts[i])
    ensures Split(Interleave(seps, ts)) == ts
  {
    if ts == [] {
      SplitSkipsSpace(seps[0], []);
      assert seps[0] + [] == seps[0];
    } else {
      var rest := Interleave(seps[1..], ts[1..]);
      assert Separators(seps[1..], ts[1..]) by {
        forall i | 0 < i < |ts[1..]| ensures seps[1..][i] != [] {
          assert seps[1..][i] == seps[i + 1];
        }
      }
      SplitUnique(seps[1..], ts[1..]);
      assert rest == [] || IsSpace(rest[0]) by {
        if ts[1..] == [] {
          assert rest == seps[1];
        } else {
          assert seps[1] != [];
          assert rest == seps[1] + (ts[1] + Interleave(seps[2..], ts[2..]));
        }
      }
      SplitOfToken(ts[0], rest);
      assert Interleave(seps, ts) == seps[0] + (ts[0] + rest);
      SplitSkipsSpace(seps[0], ts[0] + rest);
      assert [ts[0]] + ts[1..] == ts;
    }
  }

  /**
   * Conversely every string is its `split()` tokens separated by whitespace
   * (runs of it between tokens, any amount before the first and after the
   * last), so the tokens are the string's maximal whitespace-free runs.
   */
  lemma {:induction false} SplitRuns(s: string) returns (seps: seq<string>)
    ensures Separators(seps, Split(s))
    ensures s == Interleave(seps, Split(s))
    ensures s != [] && IsSpace(s[0]) ==> seps[0] != []
    decreases |s|
  {
    if s == [] {
      seps := [""];
    } else if IsSpace(s[0]) {
      var tail := SplitRuns(s[1..]);
      seps := [[s[0]] + tail[0]] + tail[1..];
      assert Split(s) == Split(s[1..]);
      InterleaveLeadingSpace(s[0], tail, Split(s));
      assert [s[0]] + s[1..] == s;
    } else {
      var w := Word(s);
      var rest := s[|w|..];
      assert w != [] && s == w + rest;
      var tail := SplitRuns(rest);
      seps := [""] + tail;
      assert Split(s) == [w] + Split(rest);
      InterleaveToken(w, tail, Split(rest));
      assert rest != [] ==> IsSpace(rest[0]);
    }
  }

  lemma InterleaveLeadingSpace(c: char, tail: seq<string>, ts: seq<string>)
    requires Separators(tail, ts) && IsSpace(c)
    ensures Separators([[c] + tail[0]] + tail[1..], ts)
    ensures Interleave([[c] + tail[0]] + tail[1..], ts) == [c] + Interleave(tail, ts)
  {
    var seps := [[c] + tail[0]] + tail[1..];
    assert seps[1..] == tail[1..];
    assert forall i :: 0 < i < |seps| ==> seps[i] == tail[i];
    if ts != [] {
      assert Interleave(seps, ts) == seps[0] + ts[0] + Interleave(tail[1..], ts[1..]);
    }
  }

  lemma InterleaveToken(w: string, tail: seq<string>, ts: seq<string>)
    requires Separators(tail, ts) && IsToken(w)
    requires ts != [] ==> tail[0] != []
    ensures Separators([""] + tail, [w] + ts)
    ensures Interleave([""] + tail, [w] + ts) == w + Interleave(tail, ts)
  {
    var seps := [""] + tail;
    assert seps[1..] == tail && ([w] + ts)[1..] == ts;
    assert forall i :: 0 < i < |seps| ==> seps[i] == tail[i - 1];
  }

  /** ASCII case folding, the part of `str.lower()` the admin menu words need. */
  function LowerChar(c: char): (d: char)
    ensures 'A' <= c <= 'Z' ==> d as int == c as int + 32
    ensures !('A' <= c <= 'Z') ==> d == c
  {
    if 'A' <= c <= 'Z' then (c as int + 32) as char else c
  }

  function Lower(s: string): (r: string)
    ensures |r| == |s|
    ensures forall i :: 0 <= i < |s| ==> r[i] == LowerChar(s[i])
  {
    if s == [] then [] else [LowerChar(s[0])] + Lower(s[1..])
  }

  /** Lower-casing twice changes nothing more than lower-casing once. */
  lemma LowerIdempotent(s: string)
    ensures Lower(Lower(s)) == Lower(s)
  {
  }
}
