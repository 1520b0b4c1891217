/** The name normalisation of lib/exclusive-lock.js: `app_name.replace(/[\s\W]+/g, '-')`.
    Every whitespace character is also a non-word character, so the character class
    `[\s\W]` is exactly "not a word character". */
module Slugs {

  /** JavaScript's `\w` (no `u` flag): ASCII letters, ASCII digits and the underscore. */
  predicate IsWordChar(c: char) {
    ('a' <= c <= 'z') || ('A' <= c <= 'Z') || ('0' <= c <= '9') || c == '_'
  }

  /** What is left of `s` after its leading maximal run of separators (non-word characters). */
  function DropSeparators(s: string): (r: string)
    ensures |r| <= |s| && r == s[|s| - |r|..]
    ensures r == [] || IsWordChar(r[0])
    ensures forall k :: 0 <= k < |s| - |r| ==> !IsWordChar(s[k])
  {
    if s == [] || IsWordChar(s[0]) then s else DropSeparators(s[1..])
  }

  /** The global replacement: each maximal run of separators becomes one `-`,
      word characters are copied. */
  function Slug(s: string): (r: string)
    ensures r == [] <==> s == []
    decreases |s|
  {
    if s == [] then []
    else if IsWordChar(s[0]) then [s[0]] + Slug(s[1..])
    else
      var rest := DropSeparators(s);
      assert |rest| < |s| by { assert !IsWordChar(s[0]); }
      "-" + Slug(rest)
  }

  /** Shape of a normalised name: word characters and `-` only, never two `-` in a row. */
  predicate IsSlug(t: string) {
    && (forall i :: 0 <= i < |t| ==> IsWordChar(t[i]) || t[i] == '-')
    && (forall i :: 0 <= i < |t| - 1 ==> !(t[i] == '-' && t[i + 1] == '-'))
  }

  /** The word characters of `s`, in order. */
  function Words(s: string): string {
    if s == [] then [] else (if IsWordChar(s[0]) then [s[0]] else []) + Words(s[1..])
  }

  // Reference definition: replace every separator by `-`, then collapse runs of `-`.

  function Dashify(s: string): (r: string)
    ensures |r| == |s|
    ensures forall i :: 0 <= i < |s| ==> r[i] == (if IsWordChar(s[i]) then s[i] else '-')
  {
    if s == [] then [] else [if IsWordChar(s[0]) then s[0] else '-'] + Dashify(s[1..])
  }

  function Collapse(t: string): string {
    if |t| <= 1 then t
    else if t[0] == '-' && t[1] == '-' then Collapse(t[1..])
    else [t[0]] + Collapse(t[1..])
  }

  /** The first character of the slug is the first character of the name, or `-`
      when the name starts with a separator. */
  lemma {:induction false} SlugHead(s: string)
    ensures Slug(s) == [] <==> s == []
    ensures s != [] ==> Slug(s)[0] == (if IsWordChar(s[0]) then s[0] else '-')
  {
  }

  /** The output consists of word characters and single dashes only. */
  lemma {:induction false} SlugIsSlug(s: string)
    ensures IsSlug(Slug(s))
    decreases |s|
  {
    if s == [] {
    } else if IsWordChar(s[0]) {
      SlugIsSlug(s[1..]);
      SlugHead(s[1..]);
      var t := Slug(s[1..]);
      assert Slug(s) == [s[0]] + t;
      assert forall i :: 1 <= i < |Slug(s)| ==> Slug(s)[i] == t[i - 1];
    } else {
      var rest := DropSeparators(s);
      SlugIsSlug(rest);
      SlugHead(rest);
      var t := Slug(rest);
      assert Slug(s) == "-" + t;
      assert forall i :: 1 <= i < |Slug(s)| ==> Slug(s)[i] == t[i - 1];
    }
  }

  lemma {:induction false} WordsAppend(a: string, b: string)
    ensures Words(a + b) == Words(a) + Words(b)
  {
    if a == [] {
      assert a + b == b;
    } else {
      var head := if IsWordChar(a[0]) then [a[0]] else [];
      assert (a + b)[0] == a[0];
      assert (a + b)[1..] == a[1..] + b;
      WordsAppend(a[1..], b);
      calc {
        Words(a + b);
        head + Words(a[1..] + b);
        head + (Words(a[1..]) + Words(b));
        (head + Words(a[1..])) + Words(b);
        Words(a) + Words(b);
      }
    }
  }

  lemma {:induction false} WordsOfSeparators(s: string)
    requires forall k :: 0 <= k < |s| ==> !IsWordChar(s[k])
    ensures Words(s) == []
  {
    if s != [] {
      WordsOfSeparators(s[1..]);
    }
  }

  /** The word characters of the name survive, in order, and nothing else that is a
      word character is introduced. */
  lemma {:induction false} SlugKeepsWords(s: string)
    ensures Words(Slug(s)) == Words(s)
    decreases |s|
  {
    if s == [] {
    } else if IsWordChar(s[0]) {
      SlugKeepsWords(s[1..]);
      assert [s[0]] + Slug(s[1..]) == Slug(s);
      WordsAppend([s[0]], Slug(s[1..]));
    } else {
      var rest := DropSeparators(s);
      var n := |s| - |rest|;
      SlugKeepsWords(rest);
      WordsAppend("-", Slug(rest));
      assert s == s[..n] + rest;
      WordsAppend(s[..n], rest);
      WordsOfSeparators(s[..n]);
    }
  }

  /** Slug agrees with the reference "dash every separator, then collapse" definition. */
  lemma {:induction false} SlugIsCollapsedDashify(s: string)
    ensures Slug(s) == Collapse(Dashify(s))
    decreases |s|
  {
    if s == [] {
    } else if IsWordChar(s[0]) {
      SlugIsCollapsedDashify(s[1..]);
      var d := Dashify(s);
      assert d[1..] == Dashify(s[1..]);
      if |d| > 1 {
        assert Collapse(d) == [d[0]] + Collapse(d[1..]);
      }
    } else {
      SlugIsCollapsedDashify(s[1..]);
      var d := Dashify(s);
      assert d[0] == '-';
      assert d[1..] == Dashify(s[1..]);
      if |s| > 1 && !IsWordChar(s[1]) {
        assert DropSeparators(s) == DropSeparators(s[1..]);
        assert Collapse(d) == Collapse(d[1..]);
      } else {
        assert DropSeparators(s) == s[1..];
        if |d| > 1 {
          assert Collapse(d) == [d[0]] + Collapse(d[1..]);
        }
      }
    }
  }

  /** A name that is already in slug form is left as it is. */
  lemma {:induction false} SlugFixesSlugs(t: string)
    requires IsSlug(t)
    ensures Slug(t) == t
    decreases |t|
  {
    if t != [] {
      var tail := t[1..];
      assert IsSlug(tail) by {
        assert forall i :: 0 <= i < |tail| ==> tail[i] == t[i + 1];
      }
      SlugFixesSlugs(tail);
      assert t == [t[0]] + tail;
      if IsWordChar(t[0]) {
        SlugOfWordHead(t);
      } else {
        assert t[0] == '-';
        assert tail == [] || IsWordChar(tail[0]) by {
          if tail != [] {
            assert tail[0] == t[1];
          }
        }
        SlugCollapsesSeparatorRun([t[0]], tail);
      }
    }
  }

  /** Normalising twice is normalising once; a name is a fixed point exactly when it
      is already in slug form. */
  lemma SlugIdempotent(s: string)
    ensures Slug(Slug(s)) == Slug(s)
    ensures Slug(s) == s <==> IsSlug(s)
  {
    SlugIsSlug(s);
    SlugFixesSlugs(Slug(s));
    if IsSlug(s) {
      SlugFixesSlugs(s);
    }
  }

  /** One step of the replacement over a leading word character. */
  lemma SlugOfWordHead(s: string)
    requires s != [] && IsWordChar(s[0])
    ensures Slug(s) == [s[0]] + Slug(s[1..])
  {
  }

  /** A run of word characters is copied unchanged. */
  lemma {:induction false} SlugKeepsWordRun(w: string, rest: string)
    requires forall k :: 0 <= k < |w| ==> IsWordChar(w[k])
    ensures Slug(w + rest) == w + Slug(rest)
    decreases |w|
  {
    if w == [] {
      assert w + rest == rest;
    } else {
      var s := w + rest;
      assert s[0] == w[0] && IsWordChar(s[0]);
      assert s[1..] == w[1..] + rest;
      SlugKeepsWordRun(w[1..], rest);
      SlugOfWordHead(s);
      calc {
        Slug(s);
        [w[0]] + Slug(w[1..] + rest);
        [w[0]] + (w[1..] + Slug(rest));
        { assert [w[0]] + w[1..] == w; }
        w + Slug(rest);
      }
    }
  }

  /** A maximal run of separators becomes exactly one `-`. */
  lemma SlugCollapsesSeparatorRun(sep: string, rest: string)
    requires sep != [] && forall k :: 0 <= k < |sep| ==> !IsWordChar(sep[k])
    requires rest == [] || IsWordChar(rest[0])
    ensures Slug(sep + rest) == "-" + Slug(rest)
  {
    var s := sep + rest;
    assert s[|s| - |rest|..] == rest;
    assert DropSeparators(s) == rest;
  }

  /** A non-empty run of word characters. */
  predicate IsWord(w: string) {
    w != [] && forall k :: 0 <= k < |w| ==> IsWordChar(w[k])
  }

  /** A non-empty run of separators. */
  predicate IsSeparatorRun(sep: string) {
    sep != [] && forall k :: 0 <= k < |sep| ==> !IsWordChar(sep[k])
  }

  /** Words `ws` with the separator runs `seps` between them. */
  function Spaced(ws: seq<string>, seps: seq<string>): (r: string)
    requires |ws| == |seps| + 1
    ensures ws[0] != [] ==> r != [] && r[0] == ws[0][0]
    decreases |seps|
  {
    if seps == [] then ws[0] else ws[0] + (seps[0] + Spaced(ws[1..], seps[1..]))
  }

  /** Words `ws` joined by single dashes. */
  function Dashed(ws: seq<string>): string
    requires ws != []
    decreases |ws|
  {
    if |ws| == 1 then ws[0] else ws[0] + ("-" + Dashed(ws[1..]))
  }

  /** A word followed by a separator run keeps the word and leaves one `-`. */
  lemma WordThenSeparator(w: string, sep: string, rest: string)
    requires IsWord(w) && IsSeparatorRun(sep)
    requires rest == [] || IsWordChar(rest[0])
    ensures Slug(w + (sep + rest)) == w + ("-" + Slug(rest))
  {
    SlugCollapsesSeparatorRun(sep, rest);
    SlugKeepsWordRun(w, sep + rest);
  }

  /** Words separated by separator runs come out joined by single dashes. */
  lemma {:induction false} SlugJoinsWords(ws: seq<string>, seps: seq<string>)
    requires |ws| == |seps| + 1
    requires forall i :: 0 <= i < |ws| ==> IsWord(ws[i])
    requires forall i :: 0 <= i < |seps| ==> IsSeparatorRun(seps[i])
    ensures Slug(Spaced(ws, seps)) == Dashed(ws)
    decreases |seps|
  {
    if seps == [] {
      SlugKeepsWordRun(ws[0], []);
      assert ws[0] + [] == ws[0];
    } else {
      assert IsWord(ws[1]);
      SlugJoinsWords(ws[1..], seps[1..]);
      WordThenSeparator(ws[0], seps[0], Spaced(ws[1..], seps[1..]));
    }
  }
}
