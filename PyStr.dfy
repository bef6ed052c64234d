/**
 * The Python `str` operations the doctor checker relies on: `strip`, `lower`,
 * `in`, `find`/`index`, slicing, `split(sep)`, `split()`, `join`, `replace`
 * and `str(int)`. Each is defined the way CPython computes it (restricted to
 * ASCII where noted) and characterised by its contract or by a lemma relating
 * it to its inverse or to a second definition.
 */
module PyStr {
  import opened Wrappers

  type String = seq<char>

  // ---------------------------------------------------------------------------
  // Whitespace and strip()
  // ---------------------------------------------------------------------------

  /** `str.isspace()` on the ASCII range: blank, \t, \n, \v, \f, \r and the
      separators \x1c to \x1f. */
  predicate IsSpace(c: char) {
    c == ' ' || c == '\t' || c == '\n' || c == '\r' || c == '\U{B}' || c == '\U{C}'
    || ('\U{1C}' <= c <= '\U{1F}')
  }

  predicate AllSpace(s: String) {
    forall k | 0 <= k < |s| :: IsSpace(s[k])
  }

  /** Neither end of `s` is whitespace: what `strip()` returns. */
  predicate Trimmed(s: String) {
    s == [] || (!IsSpace(s[0]) && !IsSpace(s[|s| - 1]))
  }

  /** `str.lstrip()`: drops the leading whitespace and nothing else. */
  function LStrip(s: String): (r: String)
    ensures |r| <= |s|
    ensures r == [] || !IsSpace(r[0])
  {
    if s != [] && IsSpace(s[0]) then LStrip(s[1..]) else s
  }

  /** `str.rstrip()`: drops the trailing whitespace and nothing else. */
  function RStrip(s: String): (r: String)
    ensures |r| <= |s|
    ensures r == [] || !IsSpace(r[|r| - 1])
  {
    if s != [] && IsSpace(s[|s| - 1]) then RStrip(s[..|s| - 1]) else s
  }

  /** What `lstrip()` keeps is a suffix of its argument. */
  lemma {:induction false} LStripSuffix(s: String)
    ensures LStrip(s) == s[|s| - |LStrip(s)|..]
  {
    if s != [] && IsSpace(s[0]) {
      LStripSuffix(s[1..]);
    }
  }

  /** What `rstrip()` keeps is a prefix of its argument. */
  lemma {:induction false} RStripPrefix(s: String)
    ensures RStrip(s) == s[..|RStrip(s)|]
  {
    if s != [] && IsSpace(s[|s| - 1]) {
      RStripPrefix(s[..|s| - 1]);
    }
  }

  /** `str.strip()`. */
  function Strip(s: String): (r: String)
    ensures Trimmed(r)
    ensures |r| <= |s|
  {
    var l := LStrip(s);
    RStripPrefix(l);
    RStrip(l)
  }

  /** What `lstrip()` drops is whitespace. */
  lemma {:induction false} LStripDropsSpace(s: String)
    ensures AllSpace(s[..|s| - |LStrip(s)|])
  {
    if s != [] && IsSpace(s[0]) {
      LStripDropsSpace(s[1..]);
      var n := |s| - |LStrip(s)|;
      assert forall k | 1 <= k < n :: s[k] == s[1..][k - 1];
    }
  }

  /** `strip()` leaves nothing exactly when the text is all whitespace. */
  lemma StripEmptyIff(s: String)
    ensures Strip(s) == [] <==> AllSpace(s)
  {
    var l := LStrip(s);
    if l != [] {
      LStripSuffix(s);
      assert s[|s| - |l|] == l[0];
      RStripKeepsHead(l);
    } else {
      LStripDropsSpace(s);
      assert s[..|s|] == s;
    }
  }

  /** `rstrip()` never removes a non-whitespace first character. */
  lemma {:induction false} RStripKeepsHead(s: String)
    requires s != [] && !IsSpace(s[0])
    ensures RStrip(s) != []
  {
    if |s| > 1 && IsSpace(s[|s| - 1]) {
      RStripKeepsHead(s[..|s| - 1]);
    }
  }

  /** Text that is already trimmed is its own `strip()`. */
  lemma StripTrimmed(s: String)
    requires Trimmed(s)
    ensures Strip(s) == s
  {
    assert LStrip(s) == s;
  }

  lemma {:induction false} LStripSpacePrefix(a: String, t: String)
    requires AllSpace(a)
    ensures LStrip(a + t) == LStrip(t)
  {
    if a != [] {
      assert (a + t)[0] == a[0] && IsSpace(a[0]);
      assert (a + t)[1..] == a[1..] + t;
      assert AllSpace(a[1..]);
      LStripSpacePrefix(a[1..], t);
    } else {
      assert a + t == t;
    }
  }

  lemma {:induction false} RStripSpaceSuffix(t: String, b: String)
    requires AllSpace(b)
    ensures RStrip(t + b) == RStrip(t)
  {
    if b != [] {
      assert (t + b)[|t + b| - 1] == b[|b| - 1] && IsSpace(b[|b| - 1]);
      assert (t + b)[..|t + b| - 1] == t + b[..|b| - 1];
      assert AllSpace(b[..|b| - 1]);
      RStripSpaceSuffix(t, b[..|b| - 1]);
    } else {
      assert t + b == t;
    }
  }

  /** `strip()` removes exactly the surrounding whitespace: whatever trimmed
      text is padded with whitespace on either side, stripping gives it back. */
  lemma StripPadded(a: String, m: String, b: String)
    requires AllSpace(a) && AllSpace(b) && Trimmed(m)
    ensures Strip(a + m + b) == m
  {
    assert a + m + b == a + (m + b);
    LStripSpacePrefix(a, m + b);
    if m == [] {
      assert m + b == b;
      LStripSpacePrefix(b, []);
      assert b + [] == b;
    } else {
      assert LStrip(m + b) == m + b;
      RStripSpaceSuffix(m, b);
    }
  }

  /** A character absent from `s` is absent from `s.strip()`. */
  lemma StripKeepsOut(s: String, c: char)
    requires c !in s
    ensures c !in Strip(s)
  {
    var l := LStrip(s);
    LStripSuffix(s);
    assert forall k | 0 <= k < |l| :: l[k] == s[|s| - |l| + k];
    var r := RStrip(l);
    RStripPrefix(l);
    assert forall k | 0 <= k < |r| :: r[k] == l[k];
  }

  /** Stripping twice is stripping once. */
  lemma StripIdempotent(s: String)
    ensures Strip(Strip(s)) == Strip(s)
  {
    StripPadded([], Strip(s), []);
    assert [] + Strip(s) + [] == Strip(s);
  }

  // ---------------------------------------------------------------------------
  // lower()
  // ---------------------------------------------------------------------------

  predicate IsUpper(c: char) {
    'A' <= c <= 'Z'
  }

  function LowerChar(c: char): char {
    if IsUpper(c) then (c as int + 32) as char else c
  }

  /** The lower-case alphabet, in order. */
  const LowerLetters: String := "abcdefghijklmnopqrstuvwxyz"

  /** `str.lower()` on ASCII letters: each of `A` to `Z` becomes the letter at
      the same place of the lower-case alphabet; every other character is
      kept. */
  function Lower(s: String): (r: String)
    ensures |r| == |s|
    ensures forall k | 0 <= k < |s| ::
      if IsUpper(s[k]) then r[k] == LowerLetters[s[k] as int - 'A' as int] else r[k] == s[k]
  {
    seq(|s|, k requires 0 <= k < |s| => LowerChar(s[k]))
  }

  /** Lower-casing leaves no upper-case letter and is idempotent. */
  lemma LowerNormal(s: String)
    ensures forall k | 0 <= k < |s| :: !IsUpper(Lower(s)[k])
    ensures Lower(Lower(s)) == Lower(s)
  {
  }

  /** Lower-casing distributes over concatenation. */
  lemma LowerConcat(s: String, t: String)
    ensures Lower(s + t) == Lower(s) + Lower(t)
  {
  }

  // ---------------------------------------------------------------------------
  // Substrings: `p in s`, `s.find(p)`, `s.index(c)`
  // ---------------------------------------------------------------------------

  /** `p` occurs in `s` starting at index `k`. */
  predicate OccursAt(s: String, p: String, k: nat) {
    k + |p| <= |s| && s[k..k + |p|] == p
  }

  /** `s.find(p, i)`, with `None` for Python's -1. */
  function FindFrom(s: String, p: String, i: nat): (r: Option<nat>)
    requires i <= |s|
    ensures r.Some? ==> i <= r.value && OccursAt(s, p, r.value)
    decreases |s| - i
  {
    if i + |p| > |s| then None
    else if s[i..i + |p|] == p then Some(i)
    else FindFrom(s, p, i + 1)
  }

  /** `find` from `i` returns the first occurrence at or after `i`, and
      nothing only when there is none. */
  lemma {:induction false} FindFromFirst(s: String, p: String, i: nat)
    requires i <= |s|
    ensures FindFrom(s, p, i).Some? ==> forall k: nat | i <= k < FindFrom(s, p, i).value :: !OccursAt(s, p, k)
    ensures FindFrom(s, p, i).None? ==> forall k: nat | i <= k :: !OccursAt(s, p, k)
    decreases |s| - i
  {
    if i + |p| <= |s| && s[i..i + |p|] != p {
      FindFromFirst(s, p, i + 1);
    }
  }

  /** `s.find(p)`: the first occurrence of `p` in `s`. */
  function Find(s: String, p: String): (r: Option<nat>)
    ensures r.Some? ==> OccursAt(s, p, r.value)
  {
    FindFrom(s, p, 0)
  }

  /** `find` returns the first occurrence, and nothing only when `p` does not
      occur at all. */
  lemma FindFirst(s: String, p: String)
    ensures Find(s, p).Some? ==> forall k: nat | k < Find(s, p).value :: !OccursAt(s, p, k)
    ensures Find(s, p).None? <==> forall k: nat :: !OccursAt(s, p, k)
  {
    FindFromFirst(s, p, 0);
  }

  /** Python's `p in s`. */
  predicate Contains(s: String, p: String) {
    Find(s, p).Some?
  }

  /** The substring test holds exactly when some position holds `p`. */
  lemma ContainsIff(s: String, p: String)
    ensures Contains(s, p) <==> exists k: nat :: OccursAt(s, p, k)
  {
    FindFirst(s, p);
  }

  /** For one character, the substring test is sequence membership. */
  lemma ContainsChar(s: String, c: char)
    ensures Contains(s, [c]) <==> c in s
  {
    if c in s {
      var k :| 0 <= k < |s| && s[k] == c;
      assert OccursAt(s, [c], k);
      FindFirst(s, [c]);
    }
    if Contains(s, [c]) {
      var k := Find(s, [c]).value;
      assert s[k] == s[k..k + 1][0];
    }
  }

  /** `s.index(c)` for a character known to occur in `s`. */
  function IndexOf(s: String, c: char): (k: nat)
    requires c in s
    ensures k < |s| && s[k] == c
  {
    if s[0] == c then 0 else 1 + IndexOf(s[1..], c)
  }

  /** `index` finds the first occurrence: no earlier position holds `c`. */
  lemma {:induction false} IndexOfFirst(s: String, c: char)
    requires c in s
    ensures forall j | 0 <= j < IndexOf(s, c) :: s[j] != c
  {
    if s[0] != c {
      IndexOfFirst(s[1..], c);
    }
  }

  /** The first occurrence is the only position before which `c` is absent. */
  lemma IndexOfIs(s: String, c: char, k: nat)
    requires k < |s| && s[k] == c
    requires forall j | 0 <= j < k :: s[j] != c
    ensures IndexOf(s, c) == k
  {
    IndexOfFirst(s, c);
  }

  /** Where `index` lands in a concatenation: in the first part when the
      character occurs there, otherwise past it. */
  lemma IndexOfConcat(a: String, b: String, c: char)
    requires c in a || c in b
    ensures c in a ==> IndexOf(a + b, c) == IndexOf(a, c)
    ensures c !in a ==> IndexOf(a + b, c) == |a| + IndexOf(b, c)
  {
    var s := a + b;
    if c in a {
      var i := IndexOf(a, c);
      IndexOfFirst(a, c);
      IndexOfIs(s, c, i);
    } else {
      var i := IndexOf(b, c);
      IndexOfFirst(b, c);
      assert forall j | 0 <= j < |a| :: s[j] == a[j] != c;
      IndexOfIs(s, c, |a| + i);
    }
  }

  /** Python slicing `s[lo:hi]` for non-negative bounds: bounds past the end are
      clamped and a slice whose end precedes its start is empty. */
  function Slice(s: String, lo: nat, hi: nat): (r: String)
    ensures lo <= hi <= |s| ==> r == s[lo..hi]
    ensures lo <= |s| <= hi ==> r == s[lo..]
    ensures hi <= lo || |s| <= lo ==> r == []
    ensures |r| <= |s|
  {
    var h := if hi <= |s| then hi else |s|;
    if lo < h then s[lo..h] else []
  }

  /** `s[:n]`: the first `n` characters, or all of `s` when it is shorter. */
  function Prefix(s: String, n: nat): (r: String)
    ensures r == if |s| <= n then s else s[..n]
  {
    Slice(s, 0, n)
  }

  // ---------------------------------------------------------------------------
  // split(sep), split() and join
  // ---------------------------------------------------------------------------

  /** `sep.join(ps)`. */
  function Join(ps: seq<String>, sep: String): String {
    if |ps| == 0 then []
    else if |ps| == 1 then ps[0]
    else ps[0] + sep + Join(ps[1..], sep)
  }

  /** `s.split(c)` for a one-character separator: the pieces between the
      separators, always at least one, none holding the separator, and joining
      them back with the separator gives `s`. */
  function Split(s: String, c: char): (r: seq<String>)
    ensures |r| >= 1
    ensures forall i | 0 <= i < |r| :: c !in r[i]
    ensures Join(r, [c]) == s
  {
    if s == [] then [[]]
    else
      var rest := Split(s[1..], c);
      if s[0] == c then
        assert [c] + Join(rest, [c]) == s;
        [[]] + rest
      else
        assert Join([[s[0]] + rest[0]] + rest[1..], [c]) == [s[0]] + Join(rest, [c]) by {
          if |rest| > 1 {
            assert ([[s[0]] + rest[0]] + rest[1..])[1..] == rest[1..];
          }
        }
        [[s[0]] + rest[0]] + rest[1..]
  }

  /** Splitting undoes joining when no piece holds the separator. */
  lemma {:induction false} SplitJoin(ps: seq<String>, c: char)
    requires |ps| >= 1
    requires forall i | 0 <= i < |ps| :: c !in ps[i]
    ensures Split(Join(ps, [c]), c) == ps
  {
    var r := Split(Join(ps, [c]), c);
    SplitUnique(r, ps, c);
  }

  /** Where the separators of a join stand: there is one exactly when there
      are two or more pieces, and the first one ends the first piece. */
  lemma JoinSeparators(ps: seq<String>, c: char)
    requires |ps| >= 1
    requires forall i | 0 <= i < |ps| :: c !in ps[i]
    ensures c in Join(ps, [c]) <==> |ps| >= 2
    ensures |ps| >= 2 ==> IndexOf(Join(ps, [c]), c) == |ps[0]|
    ensures |ps| >= 2 ==> Join(ps[1..], [c]) == Join(ps, [c])[|ps[0]| + 1..]
  {
    if |ps| >= 2 {
      var s := Join(ps, [c]);
      assert s == ps[0] + [c] + Join(ps[1..], [c]);
      assert s[|ps[0]|] == c;
      assert forall j | 0 <= j < |ps[0]| :: s[j] == ps[0][j];
      IndexOfIs(s, c, |ps[0]|);
    }
  }

  /** Two separator-free piece lists with the same join are equal. */
  lemma {:induction false} SplitUnique(ps: seq<String>, qs: seq<String>, c: char)
    requires |ps| >= 1 && |qs| >= 1
    requires forall i | 0 <= i < |ps| :: c !in ps[i]
    requires forall i | 0 <= i < |qs| :: c !in qs[i]
    requires Join(ps, [c]) == Join(qs, [c])
    ensures ps == qs
    decreases |ps|
  {
    var s := Join(ps, [c]);
    JoinSeparators(ps, c);
    JoinSeparators(qs, c);
    if c in s {
      var i := IndexOf(s, c);
      assert ps[0] == s[..i] == qs[0] by {
        assert s == ps[0] + [c] + Join(ps[1..], [c]);
        assert s == qs[0] + [c] + Join(qs[1..], [c]);
      }
      SplitUnique(ps[1..], qs[1..], c);
      assert ps == [ps[0]] + ps[1..] && qs == [qs[0]] + qs[1..];
    }
  }

  /** A character in neither the pieces nor the separator is not in their join. */
  lemma {:induction false} JoinKeepsOut(ps: seq<String>, sep: String, c: char)
    requires c !in sep
    requires forall i | 0 <= i < |ps| :: c !in ps[i]
    ensures c !in Join(ps, sep)
  {
    if |ps| > 1 {
      JoinKeepsOut(ps[1..], sep, c);
      assert Join(ps, sep) == ps[0] + sep + Join(ps[1..], sep);
    }
  }

  /** A join of non-empty pieces starts with the first piece's first character
      and ends with the last piece's last character. */
  lemma {:induction false} JoinEnds(ps: seq<String>, sep: String)
    requires |ps| >= 1
    requires forall i | 0 <= i < |ps| :: ps[i] != []
    ensures Join(ps, sep) != []
    ensures Join(ps, sep)[0] == ps[0][0]
    ensures Join(ps, sep)[|Join(ps, sep)| - 1] == ps[|ps| - 1][|ps[|ps| - 1]| - 1]
  {
    if |ps| > 1 {
      JoinEnds(ps[1..], sep);
      var tail := Join(ps[1..], sep);
      assert Join(ps, sep) == ps[0] + sep + tail;
    }
  }

  /** A word for `split()`: non-empty and free of whitespace. */
  predicate IsWord(w: String) {
    w != [] && forall k | 0 <= k < |w| :: !IsSpace(w[k])
  }

  /** The longest whitespace-free prefix of `s`. */
  function WordAtStart(s: String): (w: String)
    ensures |w| <= |s| && w == s[..|w|]
    ensures s != [] && !IsSpace(s[0]) ==> w != []
    ensures forall k | 0 <= k < |w| :: !IsSpace(s[k])
    ensures |w| < |s| ==> IsSpace(s[|w|])
  {
    if s == [] || IsSpace(s[0]) then [] else [s[0]] + WordAtStart(s[1..])
  }

  /** `s.split()`: the maximal whitespace-free runs of `s`, in order. */
  function Words(s: String): (ws: seq<String>)
    ensures forall i | 0 <= i < |ws| :: IsWord(ws[i])
    decreases |s|
  {
    var t := LStrip(s);
    if t == [] then []
    else
      var w := WordAtStart(t);
      [w] + Words(t[|w|..])
  }

  /** `split()` undoes `" ".join` on words: the inverse direction of `Words`. */
  lemma {:induction false} WordsJoin(ws: seq<String>)
    requires forall i | 0 <= i < |ws| :: IsWord(ws[i])
    ensures Words(Join(ws, " ")) == ws
  {
    if |ws| == 1 {
      assert Join(ws, " ") == ws[0] + [];
      WordsCons(ws[0], []);
    } else if |ws| > 1 {
      WordsJoin(ws[1..]);
      WordsJoinStep(ws);
    }
  }

  lemma WordsJoinStep(ws: seq<String>)
    requires forall i | 0 <= i < |ws| :: IsWord(ws[i])
    requires |ws| > 1
    requires Words(Join(ws[1..], " ")) == ws[1..]
    ensures Words(Join(ws, " ")) == ws
  {
    var tail := Join(ws[1..], " ");
    JoinCons(ws, " ");
    WordsCons(ws[0], " " + tail);
    WordsAfterSpace(tail);
    assert ws == [ws[0]] + ws[1..];
  }

  lemma JoinCons(ps: seq<String>, sep: String)
    requires |ps| > 1
    ensures Join(ps, sep) == ps[0] + (sep + Join(ps[1..], sep))
  {
  }

  /** A word followed by nothing or by whitespace is the first word. */
  lemma WordsCons(w: String, rest: String)
    requires IsWord(w)
    requires rest == [] || IsSpace(rest[0])
    ensures Words(w + rest) == [w] + Words(rest)
  {
    var s := w + rest;
    assert s[0] == w[0];
    assert LStrip(s) == s;
    WordAtStartOf(w, rest);
    assert s[|w|..] == rest;
  }

  /** Leading whitespace does not change the words. */
  lemma WordsAfterSpace(t: String)
    ensures Words(" " + t) == Words(t)
  {
    LStripSpacePrefix(" ", t);
    var l := LStrip(t);
    assert LStrip(" " + t) == l;
  }

  lemma {:induction false} WordAtStartOf(w: String, rest: String)
    requires forall k | 0 <= k < |w| :: !IsSpace(w[k])
    requires rest == [] || IsSpace(rest[0])
    ensures WordAtStart(w + rest) == w
  {
    if w == [] {
      assert w + rest == rest;
    } else {
      assert (w + rest)[0] == w[0];
      assert (w + rest)[1..] == w[1..] + rest;
      WordAtStartOf(w[1..], rest);
    }
  }

  // ---------------------------------------------------------------------------
  // replace
  // ---------------------------------------------------------------------------

  /** `s.replace(pat, repl)` as CPython computes it: find the next occurrence,
      copy what precedes it, emit `repl`, and continue after the occurrence. */
  function Replace(s: String, pat: String, repl: String): String
    requires pat != []
    decreases |s|, 1
  {
    ReplaceFrom(s, pat, repl, Find(s, pat))
  }

  /** `Replace` once `find` has answered `found`. */
  function ReplaceFrom(s: String, pat: String, repl: String, found: Option<nat>): String
    requires pat != [] && (found.Some? ==> found.value + |pat| <= |s|)
    decreases |s|, 0
  {
    match found
    case None => s
    case Some(i) => s[..i] + repl + Replace(s[i + |pat|..], pat, repl)
  }

  /** Text without the pattern is left alone. */
  lemma ReplaceAbsent(s: String, pat: String, repl: String)
    requires pat != [] && !Contains(s, pat)
    ensures Replace(s, pat, repl) == s
  {
  }

  /** A replacement no longer than the pattern never lengthens the text. */
  lemma {:induction false} ReplaceShrinks(s: String, pat: String, repl: String)
    requires pat != [] && |repl| <= |pat|
    ensures |Replace(s, pat, repl)| <= |s|
    decreases |s|
  {
    match Find(s, pat)
    case None =>
    case Some(i) =>
      ReplaceShrinks(s[i + |pat|..], pat, repl);
  }

  /** Replacing a pattern by itself gives the text back: `replace` cuts the
      text exactly at the occurrences it finds and keeps everything between. */
  lemma {:induction false} ReplaceSelf(s: String, pat: String)
    requires pat != []
    ensures Replace(s, pat, pat) == s
    decreases |s|
  {
    match Find(s, pat)
    case None =>
    case Some(i) =>
      var rest := s[i + |pat|..];
      ReplaceSelf(rest, pat);
      assert s[i..i + |pat|] == pat;
      assert s == s[..i] + s[i..i + |pat|] + rest;
  }

  /** An occurrence at the very start is replaced and scanning resumes
      after it. */
  lemma ReplaceAtStart(pat: String, repl: String, rest: String)
    requires pat != []
    ensures Replace(pat + rest, pat, repl) == repl + Replace(rest, pat, repl)
  {
    var s := pat + rest;
    assert s[0..|pat|] == pat;
    assert FindFrom(s, pat, 0) == Some(0);
    assert s[|pat|..] == rest;
  }

  /** A character that cannot start the pattern is copied, and replacing
      carries on with the rest of the text. */
  lemma ReplaceCons(c: char, s: String, pat: String, repl: String)
    requires pat != [] && c != pat[0]
    ensures Replace([c] + s, pat, repl) == [c] + Replace(s, pat, repl)
  {
    var t := [c] + s;
    FindCons(c, s, pat);
    if Find(s, pat).Some? {
      var i := Find(s, pat).value;
      ReplaceAt(s, pat, repl, i);
      ReplaceAt(t, pat, repl, i + 1);
      var after := s[i + |pat|..];
      var tail := Replace(after, pat, repl);
      assert t[i + 1 + |pat|..] == after;
      assert Replace(t, pat, repl) == t[..i + 1] + repl + tail;
      assert Replace(s, pat, repl) == s[..i] + repl + tail;
      assert t[..i + 1] == [c] + s[..i];
      SeqAssoc4([c], s[..i], repl, tail);
    } else {
      assert !Contains(t, pat);
      ReplaceAbsent(t, pat, repl);
      ReplaceAbsent(s, pat, repl);
    }
  }

  /** When the text before an occurrence cannot start the pattern, that
      occurrence is the first one replaced. */
  lemma {:induction false} ReplaceAfterFree(a: String, pat: String, repl: String, rest: String)
    requires pat != [] && pat[0] !in a
    ensures Replace(a + pat + rest, pat, repl) == a + repl + Replace(rest, pat, repl)
  {
    if a == [] {
      assert a + pat + rest == pat + rest;
      ReplaceAtStart(pat, repl, rest);
    } else {
      var c, more := a[0], a[1..];
      var tail := more + pat + rest;
      var done := Replace(rest, pat, repl);
      ReplaceAfterFree(more, pat, repl, rest);
      assert Replace(tail, pat, repl) == more + repl + done;
      ReplaceCons(c, tail, pat, repl);
      assert a + pat + rest == [c] + tail;
      SeqAssoc4([c], more, repl, done);
      assert a == [c] + more;
    }
  }

  /** Replacing a one-character separator that no piece holds changes the
      separator of the join and nothing else. */
  lemma {:induction false} ReplaceJoin(ps: seq<String>, c: char, d: char)
    requires forall i | 0 <= i < |ps| :: c !in ps[i]
    ensures Replace(Join(ps, [c]), [c], [d]) == Join(ps, [d])
  {
    if |ps| <= 1 {
      if |ps| == 1 {
        ContainsChar(ps[0], c);
      }
      ReplaceAbsent(Join(ps, [c]), [c], [d]);
    } else {
      var rest := Join(ps[1..], [c]);
      ReplaceAfterFree(ps[0], [c], [d], rest);
      ReplaceJoin(ps[1..], c, d);
    }
  }

  lemma SeqAssoc4(a: String, b: String, c: String, d: String)
    ensures a + (b + c + d) == a + b + c + d
  {
  }

  /** Where `find` lands, `replace` emits the text before, the replacement,
      and the replaced rest. */
  lemma ReplaceAt(s: String, pat: String, repl: String, i: nat)
    requires pat != [] && Find(s, pat) == Some(i)
    ensures i + |pat| <= |s|
    ensures Replace(s, pat, repl) == s[..i] + repl + Replace(s[i + |pat|..], pat, repl)
  {
    ReplaceFound(s, pat, repl, i);
    ReplaceFromSome(s, pat, repl, i);
  }

  lemma ReplaceFound(s: String, pat: String, repl: String, i: nat)
    requires pat != [] && Find(s, pat) == Some(i)
    ensures i + |pat| <= |s|
    ensures Replace(s, pat, repl) == ReplaceFrom(s, pat, repl, Some(i))
  {
  }

  lemma ReplaceFromSome(s: String, pat: String, repl: String, i: nat)
    requires pat != [] && i + |pat| <= |s|
    ensures ReplaceFrom(s, pat, repl, Some(i)) == s[..i] + repl + Replace(s[i + |pat|..], pat, repl)
  {
  }

  /** In `[c] + s`, where `c` cannot start the pattern, `find` lands one
      position after where it lands in `s`. */
  lemma FindCons(c: char, s: String, pat: String)
    requires pat != [] && c != pat[0]
    ensures Find(s, pat).None? ==> Find([c] + s, pat).None?
    ensures Find(s, pat).Some? ==> Find([c] + s, pat) == Some(Find(s, pat).value + 1)
  {
    var t := [c] + s;
    FindFirst(s, pat);
    var bound := if Find(s, pat).Some? then Find(s, pat).value + 1 else |t| + 1;
    forall k: nat | k < bound ensures !OccursAt(t, pat, k) {
      if k > 0 {
        ShiftOccurs(c, s, pat, k - 1);
      } else {
        NotAtStart(c, s, pat);
      }
    }
    if Find(s, pat).Some? {
      var i := Find(s, pat).value;
      ShiftOccurs(c, s, pat, i);
      FindIs(t, pat, i + 1);
    }
  }

  lemma NotAtStart(c: char, s: String, pat: String)
    requires pat != [] && c != pat[0]
    ensures !OccursAt([c] + s, pat, 0)
  {
  }

  /** An occurrence in `s` is an occurrence in `[c] + s`, one further on. */
  lemma ShiftOccurs(c: char, s: String, pat: String, k: nat)
    ensures OccursAt([c] + s, pat, k + 1) <==> OccursAt(s, pat, k)
  {
    if k + |pat| <= |s| {
      assert ([c] + s)[k + 1..k + 1 + |pat|] == s[k..k + |pat|];
    }
  }

  /** `find` returns the occurrence that no other occurrence precedes. */
  lemma FindIs(s: String, p: String, k: nat)
    requires OccursAt(s, p, k)
    requires forall j: nat | j < k :: !OccursAt(s, p, j)
    ensures Find(s, p) == Some(k)
  {
    FindFirst(s, p);
  }

  /** A pattern that occurs in the tail of a text occurs in the text. */
  lemma ContainsInSuffix(a: String, b: String, p: String)
    requires Contains(b, p)
    ensures Contains(a + b, p)
  {
    var k := Find(b, p).value;
    assert (a + b)[|a| + k..|a| + k + |p|] == b[k..k + |p|];
    assert OccursAt(a + b, p, |a| + k);
    FindFirst(a + b, p);
  }

  /** Whoever contains `p + q` contains `p`. */
  lemma ContainsShorter(s: String, p: String, q: String)
    requires Contains(s, p + q)
    ensures Contains(s, p)
  {
    var k := Find(s, p + q).value;
    var occ := s[k..k + |p + q|];
    assert occ == p + q;
    var head := s[k..k + |p|];
    assert forall j | 0 <= j < |p| :: head[j] == occ[j] == p[j];
    assert head == p;
    assert OccursAt(s, p, k);
    FindFirst(s, p);
  }

  // ---------------------------------------------------------------------------
  // str(int)
  // ---------------------------------------------------------------------------

  predicate IsDigit(c: char) {
    '0' <= c <= '9'
  }

  function DigitChar(d: nat): (c: char)
    requires d < 10
    ensures IsDigit(c)
  {
    ('0' as int + d) as char
  }

  /** Decimal digits of `n`, most significant first, without leading zeros. */
  function NatToStr(n: nat): (r: String)
    ensures |r| >= 1
    ensures forall k | 0 <= k < |r| :: IsDigit(r[k])
    ensures |r| > 1 ==> r[0] != '0'
  {
    (if n < 10 then [] else NatToStr(n / 10)) + [DigitChar(n % 10)]
  }

  /** The number a string of decimal digits denotes. */
  function DigitsValue(s: String): nat
    requires forall k | 0 <= k < |s| :: IsDigit(s[k])
  {
    if s == [] then 0
    else
      assert IsDigit(s[|s| - 1]);
      DigitsValue(s[..|s| - 1]) * 10 + (s[|s| - 1] as int - '0' as int)
  }

  /** `str(i)` for a Python int. */
  function IntToStr(i: int): (r: String)
    ensures r != [] && (r[0] == '-' <==> i < 0)
    ensures i >= 0 ==> r == NatToStr(i)
    ensures i < 0 ==> r[1..] == NatToStr(-i)
  {
    if i < 0 then "-" + NatToStr(-i) else NatToStr(i)
  }

  /** Reading the digits back gives the number: `NatToStr` is injective. */
  lemma {:induction false} NatToStrValue(n: nat)
    ensures DigitsValue(NatToStr(n)) == n
  {
    var r := NatToStr(n);
    var init := if n < 10 then [] else NatToStr(n / 10);
    assert r == init + [DigitChar(n % 10)];
    assert r[..|r| - 1] == init;
    assert r[|r| - 1] as int - '0' as int == n % 10;
    if n >= 10 {
      NatToStrValue(n / 10);
    }
    assert DigitsValue(init) == n / 10;
  }
}
