/** Text normalisation and tokenising (tools/skill_router.py, `normalize` and
    `tokenize`), together with the whitespace handling of Python's `str.strip()`
    and `str.split()` that they rely on.

    Only ASCII case mapping is modelled: `LowerChar` changes 'A'..'Z' and nothing
    else. */
module Text {
  import opened Wrappers

  /** A character the regular expression `[a-z0-9]` accepts. */
  predicate IsWordChar(c: char) {
    ('a' <= c <= 'z') || ('0' <= c <= '9')
  }

  /** A string made only of word characters. */
  predicate IsWord(s: string) {
    forall i :: 0 <= i < |s| ==> IsWordChar(s[i])
  }

  /** The ASCII characters Python's `str.isspace()` accepts. */
  predicate IsSpace(c: char) {
    c == ' ' || (9 <= c as int <= 13) || (28 <= c as int <= 31)
  }

  function LowerChar(c: char): char {
    if 'A' <= c <= 'Z' then (c as int + 32) as char else c
  }

  /** `str.lower()` on ASCII text. */
  function Lower(s: string): (r: string)
    ensures |r| == |s|
    ensures forall i :: 0 <= i < |s| ==> r[i] == LowerChar(s[i])
  {
    seq(|s|, i requires 0 <= i < |s| => LowerChar(s[i]))
  }

  // ---------------------------------------------------------------------------
  // re.sub(r"[^a-z0-9]+", " ", s)
  // ---------------------------------------------------------------------------

  /** Drops the leading run of characters outside `[a-z0-9]`. */
  function DropSeparators(s: string): (r: string)
    ensures |r| <= |s|
    ensures r == [] || IsWordChar(r[0])
  {
    if s == [] || IsWordChar(s[0]) then s else DropSeparators(s[1..])
  }

  /** Every maximal run of characters outside `[a-z0-9]` becomes one space. */
  function Substitute(s: string): (r: string)
    ensures forall i :: 0 <= i < |r| ==> IsWordChar(r[i]) || r[i] == ' '
    ensures forall i :: 0 <= i < |r| - 1 && r[i] == ' ' ==> r[i + 1] != ' '
    ensures r == [] <==> s == []
    ensures r != [] ==> (r[0] == ' ' <==> !IsWordChar(s[0]))
    decreases |s|
  {
    if s == [] then []
    else if IsWordChar(s[0]) then [s[0]] + Substitute(s[1..])
    else [' '] + Substitute(DropSeparators(s[1..]))
  }

  // ---------------------------------------------------------------------------
  // str.strip() and str.split()
  // ---------------------------------------------------------------------------

  function TrimLeft(s: string): (r: string)
    ensures |r| <= |s|
    ensures r == [] || !IsSpace(r[0])
  {
    if s != [] && IsSpace(s[0]) then TrimLeft(s[1..]) else s
  }

  function TrimRight(s: string): (r: string)
    ensures |r| <= |s|
    ensures r == s[..|r|]
    ensures r == [] || !IsSpace(r[|r| - 1])
    ensures forall i :: |r| <= i < |s| ==> IsSpace(s[i])
  {
    if s != [] && IsSpace(s[|s| - 1]) then TrimRight(s[..|s| - 1]) else s
  }

  /** `str.strip()`: the slice of `s` left once leading and trailing whitespace
      are removed. */
  function Strip(s: string): (r: string)
    ensures |r| <= |TrimLeft(s)| && r == TrimLeft(s)[..|r|]
    ensures r == [] || (!IsSpace(r[0]) && !IsSpace(r[|r| - 1]))
  {
    TrimRight(TrimLeft(s))
  }

  /** The longest prefix of `s` holding no whitespace. */
  function TakeNonSpace(s: string): (r: string)
    ensures |r| <= |s|
    ensures r == s[..|r|]
    ensures forall i :: 0 <= i < |r| ==> !IsSpace(r[i])
    ensures |r| == |s| || IsSpace(s[|r|])
  {
    if s == [] || IsSpace(s[0]) then [] else [s[0]] + TakeNonSpace(s[1..])
  }

  /** `str.split()` with no separator: the maximal runs of non-whitespace. */
  function Split(s: string): (r: seq<string>)
    decreases |s|
  {
    var t := TrimLeft(s);
    if t == [] then []
    else
      var w := TakeNonSpace(t);
      [w] + Split(t[|w|..])
  }

  /** `[t for t in ts if t]` */
  function NonEmpty(ts: seq<string>): (r: seq<string>)
    ensures forall i :: 0 <= i < |r| ==> r[i] != []
  {
    if ts == [] then []
    else if ts[0] == [] then NonEmpty(ts[1..])
    else [ts[0]] + NonEmpty(ts[1..])
  }

  // ---------------------------------------------------------------------------
  // normalize / tokenize
  // ---------------------------------------------------------------------------

  /** `normalize(text)` (tools/skill_router.py:27-30). */
  function Normalize(text: string): string {
    Strip(Substitute(Lower(text)))
  }

  /** `tokenize(text)` (tools/skill_router.py:33-34). */
  function Tokenize(text: string): seq<string> {
    NonEmpty(Split(Normalize(text)))
  }

  /** The set of tokens of `text`, as `set(tokenize(text))` builds it. */
  function TokenSet(text: string): set<string> {
    set t | t in Tokenize(text)
  }

  // ---------------------------------------------------------------------------
  // An independent reference: the maximal runs of `[a-z0-9]`
  // ---------------------------------------------------------------------------

  /** The longest prefix of `s` made of word characters. */
  function TakeWord(s: string): (r: string)
    ensures |r| <= |s|
    ensures r == s[..|r|]
    ensures IsWord(r)
    ensures |r| == |s| || !IsWordChar(s[|r|])
  {
    if s == [] || !IsWordChar(s[0]) then [] else [s[0]] + TakeWord(s[1..])
  }

  /** The maximal runs of `[a-z0-9]` in `s`, left to right. */
  function Words(s: string): (r: seq<string>)
    ensures forall i :: 0 <= i < |r| ==> r[i] != [] && IsWord(r[i])
    decreases |s|
  {
    var t := DropSeparators(s);
    if t == [] then []
    else
      var w := TakeWord(t);
      [w] + Words(t[|w|..])
  }

  /** A normalised string: only `[a-z0-9]` and single spaces, no space at
      either end. */
  predicate Canonical(x: string) {
    && (forall i :: 0 <= i < |x| ==> IsWordChar(x[i]) || x[i] == ' ')
    && (forall i :: 0 <= i < |x| - 1 && x[i] == ' ' ==> x[i + 1] != ' ')
    && (x == [] || (x[0] != ' ' && x[|x| - 1] != ' '))
  }

  // ---------------------------------------------------------------------------
  // Lemmas
  // ---------------------------------------------------------------------------

  lemma WordCharIsNotSpace(c: char)
    ensures IsWordChar(c) ==> !IsSpace(c)
  {
  }

  /** Appending whitespace does not change what `str.split()` returns. */
  lemma {:induction false} SplitAppendSpaces(x: string, sp: string)
    requires forall i :: 0 <= i < |sp| ==> IsSpace(sp[i])
    ensures Split(x + sp) == Split(x)
    decreases |x|
  {
    var t := TrimLeft(x);
    TrimLeftAppend(x, sp);
    if t == [] {
      AllSpacesTrimLeft(sp);
    } else {
      var w := TakeNonSpace(t);
      TakeNonSpaceAppend(t, sp);
      assert (t + sp)[|w|..] == t[|w|..] + sp;
      SplitAppendSpaces(t[|w|..], sp);
    }
  }

  lemma {:induction false} AllSpacesTrimLeft(sp: string)
    requires forall i :: 0 <= i < |sp| ==> IsSpace(sp[i])
    ensures TrimLeft(sp) == []
    decreases |sp|
  {
    if sp != [] {
      AllSpacesTrimLeft(sp[1..]);
    }
  }

  lemma {:induction false} TrimLeftAppend(x: string, y: string)
    ensures TrimLeft(x) != [] ==> TrimLeft(x + y) == TrimLeft(x) + y
    ensures TrimLeft(x) == [] ==> TrimLeft(x + y) == TrimLeft(y)
    decreases |x|
  {
    if x == [] {
      assert x + y == y;
    } else if IsSpace(x[0]) {
      assert (x + y)[1..] == x[1..] + y;
      TrimLeftAppend(x[1..], y);
    }
  }

  lemma {:induction false} TakeNonSpaceAppend(t: string, sp: string)
    requires sp == [] || IsSpace(sp[0])
    ensures TakeNonSpace(t + sp) == TakeNonSpace(t)
    decreases |t|
  {
    if t == [] {
      assert t + sp == sp;
    } else if !IsSpace(t[0]) {
      assert (t + sp)[1..] == t[1..] + sp;
      TakeNonSpaceAppend(t[1..], sp);
    }
  }

  /** What `TrimLeft` removes is a prefix of whitespace. */
  lemma {:induction false} TrimLeftSuffix(s: string)
    ensures TrimLeft(s) == s[|s| - |TrimLeft(s)|..]
    decreases |s|
  {
    if s != [] && IsSpace(s[0]) {
      TrimLeftSuffix(s[1..]);
    }
  }

  /** What `TrimLeft` removes is whitespace. */
  lemma {:induction false} TrimLeftDropsSpaces(s: string)
    ensures forall i :: 0 <= i < |s| - |TrimLeft(s)| ==> IsSpace(s[i])
    decreases |s|
  {
    if s != [] && IsSpace(s[0]) {
      TrimLeftDropsSpaces(s[1..]);
      forall i | 1 <= i < |s| - |TrimLeft(s)|
        ensures IsSpace(s[i])
      {
        assert s[i] == s[1..][i - 1];
      }
    }
  }

  /** `str.strip()` removes whitespace and nothing else: the result is the
      slice of `s` between a whitespace prefix and a whitespace suffix, and it
      neither starts nor ends with whitespace. */
  lemma StripRemovesWhitespace(s: string)
    ensures var k := |s| - |TrimLeft(s)|;
      && k + |Strip(s)| <= |s|
      && Strip(s) == s[k..k + |Strip(s)|]
      && (forall i :: 0 <= i < k ==> IsSpace(s[i]))
      && (forall i :: k + |Strip(s)| <= i < |s| ==> IsSpace(s[i]))
      && (Strip(s) == [] || (!IsSpace(Strip(s)[0]) && !IsSpace(Strip(s)[|Strip(s)| - 1])))
  {
    var t := TrimLeft(s);
    var r := Strip(s);
    var k := |s| - |t|;
    TrimLeftSuffix(s);
    TrimLeftDropsSpaces(s);
    assert r == t[..|r|];
    forall i | k + |r| <= i < |s|
      ensures IsSpace(s[i])
    {
      assert s[i] == t[i - k];
    }
  }

  /** What `DropSeparators` removes is a prefix of non-word characters. */
  lemma {:induction false} DropSeparatorsSuffix(s: string)
    ensures |DropSeparators(s)| <= |s|
    ensures DropSeparators(s) == s[|s| - |DropSeparators(s)|..]
    ensures forall i :: 0 <= i < |s| - |DropSeparators(s)| ==> !IsWordChar(s[i])
    decreases |s|
  {
    if s != [] && !IsWordChar(s[0]) {
      DropSeparatorsSuffix(s[1..]);
      forall i | 1 <= i < |s| - |DropSeparators(s)|
        ensures !IsWordChar(s[i])
      {
        assert s[i] == s[1..][i - 1];
      }
    }
  }

  /** The substituted text ends with a space exactly when the input ends
      outside `[a-z0-9]`. */
  lemma {:induction false} SubstituteLast(s: string)
    ensures Substitute(s) != [] ==> (Substitute(s)[|Substitute(s)| - 1] == ' ' <==> !IsWordChar(s[|s| - 1]))
    decreases |s|
  {
    if s != [] {
      var r := Substitute(s);
      if IsWordChar(s[0]) {
        assert r == [s[0]] + Substitute(s[1..]);
        if s[1..] != [] {
          SubstituteLast(s[1..]);
          assert s[|s| - 1] == s[1..][|s[1..]| - 1];
        }
      } else {
        var d := DropSeparators(s[1..]);
        assert r == [' '] + Substitute(d);
        DropSeparatorsSuffix(s[1..]);
        if d == [] {
          if |s| > 1 {
            assert s[|s| - 1] == s[1..][|s| - 2];
          }
        } else {
          SubstituteLast(d);
          assert d[|d| - 1] == s[|s| - 1];
        }
      }
    }
  }

  /** Trailing whitespace does not change what `TrimRight` keeps. */
  lemma {:induction false} TrimRightAppendSpaces(x: string, q: string)
    requires forall i :: 0 <= i < |q| ==> IsSpace(q[i])
    ensures TrimRight(x + q) == TrimRight(x)
    decreases |q|
  {
    if q == [] {
      assert x + q == x;
    } else {
      var q' := q[..|q| - 1];
      assert (x + q)[..|x + q| - 1] == x + q';
      TrimRightAppendSpaces(x, q');
    }
  }

  /** Whitespace around a string does not change what `str.strip()` keeps. */
  lemma StripPadded(p: string, v: string, q: string)
    requires forall i :: 0 <= i < |p| ==> IsSpace(p[i])
    requires forall i :: 0 <= i < |q| ==> IsSpace(q[i])
    ensures Strip(p + v + q) == Strip(v)
  {
    assert p + v + q == p + (v + q);
    AllSpacesTrimLeft(p);
    TrimLeftAppend(p, v + q);
    TrimLeftAppend(v, q);
    if TrimLeft(v) != [] {
      TrimRightAppendSpaces(TrimLeft(v), q);
    } else {
      AllSpacesTrimLeft(q);
    }
  }

  lemma TrimLeftIdempotent(s: string)
    ensures TrimLeft(TrimLeft(s)) == TrimLeft(s)
  {
  }

  /** `str.split()` ignores whitespace at either end. */
  lemma SplitStrip(s: string)
    ensures Split(Strip(s)) == Split(s)
  {
    var t := TrimLeft(s);
    var r := TrimRight(t);
    assert t == r + t[|r|..];
    SplitAppendSpaces(r, t[|r|..]);
    TrimLeftIdempotent(s);
  }

  /** A word followed by nothing or by a space splits off as one piece. */
  lemma {:induction false} TakeNonSpaceWord(w: string, z: string)
    requires IsWord(w)
    requires z == [] || z[0] == ' '
    ensures TakeNonSpace(w + z) == w
    decreases |w|
  {
    if w == [] {
      assert w + z == z;
    } else {
      WordCharIsNotSpace(w[0]);
      assert (w + z)[1..] == w[1..] + z;
      TakeNonSpaceWord(w[1..], z);
    }
  }

  /** Substitution leaves a leading word untouched. */
  lemma {:induction false} SubstituteWordPrefix(s: string, n: nat)
    requires n <= |s|
    requires IsWord(s[..n])
    ensures Substitute(s) == s[..n] + Substitute(s[n..])
    decreases n
  {
    if n > 0 {
      assert s[0] == s[..n][0];
      assert s[1..][..n - 1] == s[1..n];
      assert IsWord(s[1..][..n - 1]);
      SubstituteWordPrefix(s[1..], n - 1);
      assert s[1..][n - 1..] == s[n..];
      assert s[..n] == [s[0]] + s[1..n];
    }
  }

  /** Splitting the substituted text yields exactly the runs of `[a-z0-9]`. */
  lemma {:induction false} SplitSubstitute(s: string)
    ensures Split(Substitute(s)) == Words(s)
    decreases |s|
  {
    if s == [] {
    } else if !IsWordChar(s[0]) {
      var d := DropSeparators(s[1..]);
      assert DropSeparators(s) == d;
      assert TrimLeft([' '] + Substitute(d)) == TrimLeft(Substitute(d));
      SplitSubstitute(d);
      assert DropSeparators(d) == d;
    } else {
      var w := TakeWord(s);
      var rest := s[|w|..];
      assert w == s[..|w|];
      SubstituteWordPrefix(s, |w|);
      var z := Substitute(rest);
      assert z == [] || z[0] == ' ';
      WordCharIsNotSpace(s[0]);
      assert TrimLeft(w + z) == w + z;
      TakeNonSpaceWord(w, z);
      assert (w + z)[|w|..] == z;
      SplitSubstitute(rest);
    }
  }

  lemma {:induction false} NonEmptyKeeps(ts: seq<string>)
    requires forall i :: 0 <= i < |ts| ==> ts[i] != []
    ensures NonEmpty(ts) == ts
    decreases |ts|
  {
    if ts != [] {
      NonEmptyKeeps(ts[1..]);
    }
  }

  /** `tokenize(text)` is exactly the list of maximal `[a-z0-9]` runs of the
      lower-cased text, in order; in particular every token is non-empty and
      made of `[a-z0-9]` only, and repeated words are kept. */
  lemma TokenizeIsWords(text: string)
    ensures Tokenize(text) == Words(Lower(text))
    ensures forall t :: t in Tokenize(text) ==> t != [] && IsWord(t)
  {
    var s := Lower(text);
    var u := Substitute(s);
    SplitStrip(u);
    SplitSubstitute(s);
    var ws := Words(s);
    NonEmptyKeeps(ws);
  }

  /** A slice of `x` keeps the character classes and single spacing of `x`. */
  lemma CanonicalStrip(u: string)
    requires forall i :: 0 <= i < |u| ==> IsWordChar(u[i]) || u[i] == ' '
    requires forall i :: 0 <= i < |u| - 1 && u[i] == ' ' ==> u[i + 1] != ' '
    ensures Canonical(Strip(u))
  {
    var r := Strip(u);
    var k := |u| - |TrimLeft(u)|;
    TrimLeftSuffix(u);
    assert r == u[k..k + |r|];
    forall i | 0 <= i < |r|
      ensures IsWordChar(r[i]) || r[i] == ' '
    {
      assert r[i] == u[k + i];
    }
    forall i | 0 <= i < |r| - 1 && r[i] == ' '
      ensures r[i + 1] != ' '
    {
      assert r[i] == u[k + i] && r[i + 1] == u[k + i + 1];
    }
  }

  /** `normalize` always produces a canonical string. */
  lemma NormalizeCanonical(text: string)
    ensures Canonical(Normalize(text))
  {
    CanonicalStrip(Substitute(Lower(text)));
  }

  /** Substitution leaves single-spaced `[a-z0-9 ]` text as it is. */
  lemma {:induction false} SubstituteFixed(x: string)
    requires forall i :: 0 <= i < |x| ==> IsWordChar(x[i]) || x[i] == ' '
    requires forall i :: 0 <= i < |x| - 1 && x[i] == ' ' ==> x[i + 1] != ' '
    ensures Substitute(x) == x
    decreases |x|
  {
    if x != [] {
      if !IsWordChar(x[0]) {
        assert x[1..] == [] || x[1] != ' ';
        assert DropSeparators(x[1..]) == x[1..];
      }
      SubstituteFixed(x[1..]);
    }
  }

  lemma LowerFixed(x: string)
    requires forall i :: 0 <= i < |x| ==> IsWordChar(x[i]) || x[i] == ' '
    ensures Lower(x) == x
  {
    var l := Lower(x);
    forall i | 0 <= i < |x|
      ensures l[i] == x[i]
    {
      assert IsWordChar(x[i]) || x[i] == ' ';
    }
  }

  /** A canonical string is its own normal form. */
  lemma NormalizeCanonicalFixed(x: string)
    requires Canonical(x)
    ensures Normalize(x) == x
  {
    LowerFixed(x);
    SubstituteFixed(x);
    if x != [] {
      assert IsWordChar(x[0]) && IsWordChar(x[|x| - 1]);
      WordCharIsNotSpace(x[0]);
      WordCharIsNotSpace(x[|x| - 1]);
      assert TrimLeft(x) == x;
      assert TrimRight(x) == x;
    }
  }

  /** `normalize` is idempotent, and tokenising normalised text gives the
      same tokens as tokenising the original. */
  lemma NormalizeIdempotent(text: string)
    ensures Normalize(Normalize(text)) == Normalize(text)
    ensures Tokenize(Normalize(text)) == Tokenize(text)
  {
    NormalizeCanonical(text);
    NormalizeCanonicalFixed(Normalize(text));
  }

  // ---------------------------------------------------------------------------
  // str.join and str.split with one separator character
  // ---------------------------------------------------------------------------

  /** `sep.join(parts)` for a one-character separator. */
  function Join(parts: seq<string>, sep: char): string {
    if parts == [] then []
    else if |parts| == 1 then parts[0]
    else parts[0] + [sep] + Join(parts[1..], sep)
  }

  /** The index of the first `c` in `s`, if any. */
  function IndexOf(s: string, c: char): (r: Option<nat>)
    ensures r.None? <==> c !in s
    ensures r.Some? ==> r.value < |s| && s[r.value] == c && c !in s[..r.value]
  {
    if s == [] then None
    else if s[0] == c then Some(0)
    else match IndexOf(s[1..], c)
      case None => None
      case Some(i) =>
        assert s[..i + 1] == [s[0]] + s[1..][..i];
        Some(i + 1)
  }

  /** `s.split(sep)`: the pieces between occurrences of `sep`, empty ones kept. */
  function SplitOn(s: string, sep: char): (r: seq<string>)
    ensures r != []
    decreases |s|
  {
    match IndexOf(s, sep)
    case None => [s]
    case Some(i) => [s[..i]] + SplitOn(s[i + 1..], sep)
  }

  /** Splitting a joined list on a separator no part contains gives the list
      back. */
  lemma {:induction false} SplitJoin(parts: seq<string>, sep: char)
    requires parts != []
    requires forall i :: 0 <= i < |parts| ==> sep !in parts[i]
    ensures SplitOn(Join(parts, sep), sep) == parts
    decreases |parts|
  {
    if |parts| > 1 {
      var p := parts[0];
      var rest := Join(parts[1..], sep);
      var j := p + [sep] + rest;
      assert j[..|p|] == p;
      assert j[|p|] == sep;
      IndexOfAfter(p, sep, rest);
      assert j[|p| + 1..] == rest;
      SplitJoin(parts[1..], sep);
    }
  }

  lemma IndexOfAfter(p: string, sep: char, rest: string)
    requires sep !in p
    ensures IndexOf(p + [sep] + rest, sep) == Some(|p|)
  {
    var j := p + [sep] + rest;
    var r := IndexOf(j, sep);
    assert j[|p|] == sep;
    assert r.Some?;
    assert forall k :: 0 <= k < |p| ==> j[k] == p[k];
  }

  lemma {:induction false} TakeWordAll(w: string, rest: string)
    requires IsWord(w)
    requires rest == [] || !IsWordChar(rest[0])
    ensures TakeWord(w + rest) == w
    decreases |w|
  {
    if w == [] {
      assert w + rest == rest;
    } else {
      assert (w + rest)[1..] == w[1..] + rest;
      TakeWordAll(w[1..], rest);
      assert w == [w[0]] + w[1..];
    }
  }

  /** A word followed by a separator and more text contributes itself. */
  lemma WordsCons(w: string, c: char, rest: string)
    requires w != [] && IsWord(w) && !IsWordChar(c)
    ensures Words(w + [c] + rest) == [w] + Words(rest)
  {
    var s := w + [c] + rest;
    assert DropSeparators(s) == s;
    TakeWordAll(w, [c] + rest);
    assert s == w + ([c] + rest);
    assert s[|w|..] == [c] + rest;
    assert DropSeparators([c] + rest) == DropSeparators(rest);
  }

  /** Words joined by one separator character split back into those words. */
  lemma {:induction false} WordsJoin(ws: seq<string>, c: char)
    requires !IsWordChar(c)
    requires forall i :: 0 <= i < |ws| ==> ws[i] != [] && IsWord(ws[i])
    ensures Words(Join(ws, c)) == ws
    decreases |ws|
  {
    if ws == [] {
      assert DropSeparators([]) == [];
    } else if |ws| == 1 {
      var w := ws[0];
      assert DropSeparators(w) == w;
      TakeWordAll(w, []);
      assert w + [] == w;
      assert w[|w|..] == [];
    } else {
      WordsJoin(ws[1..], c);
      WordsCons(ws[0], c, Join(ws[1..], c));
      assert ws == [ws[0]] + ws[1..];
    }
  }

  /** The tokens of a text whose lower-case form is words joined by a
      separator are those words. */
  lemma TokenizeJoined(text: string, ws: seq<string>, c: char)
    requires !IsWordChar(c)
    requires forall i :: 0 <= i < |ws| ==> ws[i] != [] && IsWord(ws[i])
    requires Lower(text) == Join(ws, c)
    ensures Tokenize(text) == ws
  {
    TokenizeIsWords(text);
    WordsJoin(ws, c);
  }
}
