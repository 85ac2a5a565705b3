/** `preprocess_text` of the NLP service: collapse whitespace runs, drop punctuation,
    lowercase, over ASCII text. */
module TextAnalysis {
  import opened Collections

  // ---- preprocess_text ----

  predicate IsAscii(s: string) {
    forall i :: 0 <= i < |s| ==> s[i] as int < 128
  }

  /** Python's `\s` on an ASCII character: tab, line feed, vertical tab, form feed, carriage
      return, the separators 0x1C to 0x1F, and the space. */
  predicate IsSpace(c: char) {
    9 <= c as int <= 13 || 28 <= c as int <= 32
  }

  /** Python's `\w` on an ASCII character: a letter, a digit or the underscore. */
  predicate IsWordChar(c: char) {
    'a' <= c <= 'z' || 'A' <= c <= 'Z' || '0' <= c <= '9' || c == '_'
  }

  predicate IsUpper(c: char) {
    'A' <= c <= 'Z'
  }

  /** `str.lower` on an ASCII character. */
  function ToLower(c: char): (d: char)
    ensures !IsUpper(d)
    ensures IsUpper(c) ==> d as int == c as int + 32
    ensures !IsUpper(c) ==> d == c
  {
    if IsUpper(c) then (c as int + 32) as char else c
  }

  /** The rest of `s` after its leading whitespace. */
  function SkipSpaces(s: string): (r: string)
    ensures |r| <= |s| && r == s[|s| - |r|..]
    ensures r != [] ==> !IsSpace(r[0])
    ensures forall i :: 0 <= i < |s| - |r| ==> IsSpace(s[i])
  {
    if s != [] && IsSpace(s[0]) then SkipSpaces(s[1..]) else s
  }

  /** `re.sub(r'\s+', ' ', s)`: every maximal run of whitespace becomes one space. */
  function CollapseSpaces(s: string): (r: string)
    ensures |r| <= |s|
    ensures r != [] <==> s != []
    ensures r != [] ==> (IsSpace(r[0]) <==> IsSpace(s[0]))
    ensures forall i :: 0 <= i < |r| && IsSpace(r[i]) ==> r[i] == ' '
    ensures forall i :: 0 <= i < |r| - 1 ==> !(IsSpace(r[i]) && IsSpace(r[i + 1]))
    decreases |s|
  {
    if s == [] then []
    else if IsSpace(s[0]) then
      var rest := CollapseSpaces(SkipSpaces(s[1..]));
      var r := [' '] + rest;
      assert forall i :: 0 < i < |r| ==> r[i] == rest[i - 1];
      r
    else
      var rest := CollapseSpaces(s[1..]);
      var r := [s[0]] + rest;
      assert forall i :: 0 < i < |r| ==> r[i] == rest[i - 1];
      r
  }

  /** `re.sub(r'[^\w\s]', '', s)`: drops every character that is neither a word character nor
      whitespace. */
  function StripPunctuation(s: string): (r: string)
    ensures |r| <= |s|
    ensures forall i :: 0 <= i < |r| ==> IsWordChar(r[i]) || IsSpace(r[i])
    ensures forall c :: c in r ==> c in s
  {
    if s == [] then []
    else (if IsWordChar(s[0]) || IsSpace(s[0]) then [s[0]] else []) + StripPunctuation(s[1..])
  }

  /** `str.lower` on an ASCII string: no uppercase letter is left, each character keeps its
      class, and a string without uppercase letters is returned unchanged. */
  function Lower(s: string): (r: string)
    ensures |r| == |s|
    ensures forall i :: 0 <= i < |r| ==> !IsUpper(r[i])
    ensures forall i :: 0 <= i < |r| ==>
      (IsWordChar(r[i]) <==> IsWordChar(s[i])) && (IsSpace(r[i]) <==> IsSpace(s[i]))
    ensures (forall i :: 0 <= i < |s| ==> !IsUpper(s[i])) ==> r == s
  {
    seq(|s|, i requires 0 <= i < |s| => ToLower(s[i]))
  }

  /** `preprocess_text`: collapse whitespace runs, drop punctuation, lowercase. Every character of
      the result is a lowercase word character or the space, and it is no longer than the input. */
  function Preprocess(text: string): (r: string)
    requires IsAscii(text)
    ensures |r| <= |text|
    ensures forall i :: 0 <= i < |r| ==> (IsWordChar(r[i]) && !IsUpper(r[i])) || r[i] == ' '
  {
    var c := CollapseSpaces(text);
    var t := StripPunctuation(c);
    assert forall i :: 0 <= i < |t| && IsSpace(t[i]) ==> t[i] == ' ' by {
      forall i | 0 <= i < |t| && IsSpace(t[i]) ensures t[i] == ' ' {
        assert t[i] in c;
      }
    }
    Lower(t)
  }

  /** The non-whitespace characters of `s`, in order. */
  function NonSpace(s: string): string {
    if s == [] then [] else (if IsSpace(s[0]) then [] else [s[0]]) + NonSpace(s[1..])
  }

  lemma {:induction false} SkipSpacesNonSpace(s: string)
    ensures NonSpace(SkipSpaces(s)) == NonSpace(s)
  {
    if s != [] && IsSpace(s[0]) { SkipSpacesNonSpace(s[1..]); }
  }

  /** Collapsing whitespace keeps every other character, in order. */
  lemma {:induction false} CollapseKeepsNonSpace(s: string)
    ensures NonSpace(CollapseSpaces(s)) == NonSpace(s)
    decreases |s|
  {
    if s != [] {
      var r := CollapseSpaces(s);
      if IsSpace(s[0]) {
        var t := SkipSpaces(s[1..]);
        CollapseKeepsNonSpace(t);
        SkipSpacesNonSpace(s[1..]);
        assert r == [' '] + CollapseSpaces(t);
        assert r[1..] == CollapseSpaces(t);
      } else {
        CollapseKeepsNonSpace(s[1..]);
        assert r[1..] == CollapseSpaces(s[1..]);
      }
    }
  }

  /** Dropping punctuation keeps every occurrence of a word or whitespace character and no
      occurrence of anything else. */
  lemma {:induction false} StripPunctuationCounts(s: string)
    ensures forall c ::
      multiset(StripPunctuation(s))[c] == if IsWordChar(c) || IsSpace(c) then multiset(s)[c] else 0
  {
    if s != [] {
      StripPunctuationCounts(s[1..]);
      assert s == [s[0]] + s[1..];
    }
  }

  lemma {:induction false} StripIsSubsequence(s: string)
    ensures IsSubsequence(StripPunctuation(s), s)
  {
    if s != [] {
      StripIsSubsequence(s[1..]);
      var t := StripPunctuation(s[1..]);
      if IsWordChar(s[0]) || IsSpace(s[0]) {
        assert StripPunctuation(s) == [s[0]] + t;
        assert StripPunctuation(s)[1..] == t;
      } else {
        assert StripPunctuation(s) == t;
      }
    }
  }

  /** The result of `preprocess_text` is the lowercase of an order-preserving subsequence of the
      whitespace-collapsed input. */
  lemma PreprocessIsLoweredSubsequence(text: string)
    requires IsAscii(text)
    ensures exists t :: IsSubsequence(t, CollapseSpaces(text)) && Preprocess(text) == Lower(t)
  {
    var t := StripPunctuation(CollapseSpaces(text));
    StripIsSubsequence(CollapseSpaces(text));
    assert Preprocess(text) == Lower(t);
  }

  /** Spaces that become neighbours when punctuation is dropped stay two spaces, so
      `preprocess_text` is not idempotent: " . " becomes two spaces, and those become one. */
  lemma PreprocessNotIdempotent()
    ensures IsAscii(" . ") && Preprocess(" . ") == "  "
    ensures IsAscii("  ") && Preprocess("  ") == " "
  {
    PreprocessFirstPass();
    PreprocessSecondPass();
  }

  lemma PreprocessFirstPass()
    ensures IsAscii(" . ") && Preprocess(" . ") == "  "
  {
    var x: string := " . ";
    var d: string := ". ";
    var s: string := " ";
    assert x[1..] == d && d[1..] == s && s[1..] == [];
    assert SkipSpaces(s[1..]) == [];
    assert CollapseSpaces(s) == s;
    assert CollapseSpaces(d) == d;
    assert SkipSpaces(d) == d;
    assert CollapseSpaces(x) == x;
    assert StripPunctuation(s) == s;
    assert StripPunctuation(d) == s;
    var t := StripPunctuation(x);
    assert t == [' '] + s;
    assert forall i :: 0 <= i < |t| ==> !IsUpper(t[i]);
  }

  lemma PreprocessSecondPass()
    ensures IsAscii("  ") && Preprocess("  ") == " "
  {
    var y: string := "  ";
    var s: string := " ";
    assert y[1..] == s && s[1..] == [];
    assert SkipSpaces(s) == [];
    assert CollapseSpaces(y) == " ";
    assert StripPunctuation(" ") == " ";
  }

  // ---- what survives ----

  /** All of `w` is whitespace and `b` does not start with any: skipping the whitespace of
      `w + b` leaves `b`. */
  lemma {:induction false} SkipSpacesRun(w: string, b: string)
    requires forall i :: 0 <= i < |w| ==> IsSpace(w[i])
    requires b == [] || !IsSpace(b[0])
    ensures SkipSpaces(w + b) == b
  {
    if w != [] {
      assert (w + b)[1..] == w[1..] + b;
      SkipSpacesRun(w[1..], b);
    } else {
      assert w + b == b;
    }
  }

  /** Skipping leading whitespace that stops inside `x` does not reach `y`. */
  lemma {:induction false} SkipSpacesAppend(x: string, y: string)
    requires SkipSpaces(x) != []
    ensures SkipSpaces(x + y) == SkipSpaces(x) + y
  {
    if IsSpace(x[0]) {
      assert (x + y)[1..] == x[1..] + y;
      SkipSpacesAppend(x[1..], y);
    }
  }

  /** A whitespace run between a part that ends in a non-space and a part that starts with one
      becomes exactly one space, and the parts on either side are collapsed on their own. */
  lemma {:induction false} CollapseRun(a: string, w: string, b: string)
    requires w != [] && forall i :: 0 <= i < |w| ==> IsSpace(w[i])
    requires a == [] || !IsSpace(a[|a| - 1])
    requires b == [] || !IsSpace(b[0])
    ensures CollapseSpaces(a + w + b) == CollapseSpaces(a) + " " + CollapseSpaces(b)
    decreases |a|, 1
  {
    if a == [] {
      CollapseRunFirst(w, b);
      assert a + w + b == w + b;
    } else if !IsSpace(a[0]) {
      CollapseRunWord(a, w, b);
    } else {
      CollapseRunSpace(a, w, b);
    }
  }

  lemma {:induction false} CollapseRunWord(a: string, w: string, b: string)
    requires w != [] && forall i :: 0 <= i < |w| ==> IsSpace(w[i])
    requires a != [] && !IsSpace(a[0]) && !IsSpace(a[|a| - 1])
    requires b == [] || !IsSpace(b[0])
    ensures CollapseSpaces(a + w + b) == CollapseSpaces(a) + " " + CollapseSpaces(b)
    decreases |a|, 0
  {
    var x := a[1..];
    var cx := CollapseSpaces(x);
    var cb := CollapseSpaces(b);
    assert CollapseSpaces(a + w + b) == [a[0]] + CollapseSpaces(x + w + b) by {
      CollapseWordStep(a, w + b);
      Assoc(a, w, b);
      Assoc(x, w, b);
    }
    assert CollapseSpaces(x + w + b) == cx + " " + cb by {
      CollapseRun(x, w, b);
    }
    assert CollapseSpaces(a) == [a[0]] + cx by {
      CollapseWordStep(a, []);
    }
    ConsAssoc(a[0], cx, " ", cb);
  }

  lemma {:induction false} CollapseRunSpace(a: string, w: string, b: string)
    requires w != [] && forall i :: 0 <= i < |w| ==> IsSpace(w[i])
    requires a != [] && IsSpace(a[0]) && !IsSpace(a[|a| - 1])
    requires b == [] || !IsSpace(b[0])
    ensures CollapseSpaces(a + w + b) == CollapseSpaces(a) + " " + CollapseSpaces(b)
    decreases |a|, 0
  {
    var x := a[1..];
    SkipSpacesKeepsLast(x);
    var a' := SkipSpaces(x);
    var ca := CollapseSpaces(a');
    var cb := CollapseSpaces(b);
    assert CollapseSpaces(a + w + b) == [' '] + CollapseSpaces(a' + w + b) by {
      CollapseSpaceStep(a, w + b);
      Assoc(a, w, b);
      Assoc(a', w, b);
    }
    assert CollapseSpaces(a' + w + b) == ca + " " + cb by {
      CollapseRun(a', w, b);
    }
    assert CollapseSpaces(a) == [' '] + ca by {
      CollapseSpaceStep(a, []);
    }
    ConsAssoc(' ', ca, " ", cb);
  }

  lemma Assoc(x: string, y: string, z: string)
    ensures x + y + z == x + (y + z)
  {
  }

  lemma ConsAssoc(c: char, x: string, y: string, z: string)
    ensures [c] + (x + y + z) == [c] + x + y + z
  {
  }

  /** Skipping leading whitespace of a text that ends in a non-space stops before its end. */
  lemma SkipSpacesKeepsLast(x: string)
    requires x != [] && !IsSpace(x[|x| - 1])
    ensures SkipSpaces(x) != [] && !IsSpace(SkipSpaces(x)[|SkipSpaces(x)| - 1])
  {
    var r := SkipSpaces(x);
    var last := x[|x| - 1];
    assert |r| > 0 || IsSpace(last);
    assert r[|r| - 1] == last;
  }

  lemma CollapseRunFirst(w: string, b: string)
    requires w != [] && forall i :: 0 <= i < |w| ==> IsSpace(w[i])
    requires b == [] || !IsSpace(b[0])
    ensures CollapseSpaces(w + b) == " " + CollapseSpaces(b)
  {
    var s := w + b;
    assert s[0] == w[0] && s[1..] == w[1..] + b;
    SkipSpacesRun(w[1..], b);
  }

  /** Collapsing a text that starts with a non-space keeps that character in front. */
  lemma CollapseWordStep(a: string, y: string)
    requires a != [] && !IsSpace(a[0])
    ensures CollapseSpaces(a + y) == [a[0]] + CollapseSpaces(a[1..] + y)
    ensures CollapseSpaces(a) == [a[0]] + CollapseSpaces(a[1..])
  {
    var s := a + y;
    assert s[0] == a[0] && s[1..] == a[1..] + y;
  }

  /** Collapsing a text that starts with whitespace that ends inside `a` gives one space, then the
      rest of `a` after that whitespace. */
  lemma CollapseSpaceStep(a: string, y: string)
    requires a != [] && IsSpace(a[0]) && SkipSpaces(a[1..]) != []
    ensures CollapseSpaces(a + y) == [' '] + CollapseSpaces(SkipSpaces(a[1..]) + y)
    ensures CollapseSpaces(a) == [' '] + CollapseSpaces(SkipSpaces(a[1..]))
  {
    var s := a + y;
    assert s[0] == a[0] && s[1..] == a[1..] + y;
    SkipSpacesAppend(a[1..], y);
  }

  /** Text without whitespace is left as it is. */
  lemma {:induction false} CollapseNoSpace(s: string)
    requires forall i :: 0 <= i < |s| ==> !IsSpace(s[i])
    ensures CollapseSpaces(s) == s
  {
    if s != [] {
      CollapseNoSpace(s[1..]);
      assert s == [s[0]] + s[1..];
    }
  }

  /** The word characters of `s`, in order. */
  function WordChars(s: string): string {
    if s == [] then [] else (if IsWordChar(s[0]) then [s[0]] else []) + WordChars(s[1..])
  }

  lemma {:induction false} WordCharsNonSpace(s: string)
    ensures WordChars(NonSpace(s)) == WordChars(s)
  {
    if s != [] {
      WordCharsNonSpace(s[1..]);
      var rest := NonSpace(s[1..]);
      if !IsSpace(s[0]) {
        var n := [s[0]] + rest;
        assert NonSpace(s) == n;
        assert n[0] == s[0] && n[1..] == rest;
        assert WordChars(n) == (if IsWordChar(s[0]) then [s[0]] else []) + WordChars(rest);
      } else {
        assert NonSpace(s) == rest;
        assert !IsWordChar(s[0]);
      }
    }
  }

  lemma {:induction false} NonSpaceStrip(s: string)
    ensures NonSpace(StripPunctuation(s)) == WordChars(s)
  {
    if s != [] {
      NonSpaceStrip(s[1..]);
      var rest := StripPunctuation(s[1..]);
      if IsWordChar(s[0]) || IsSpace(s[0]) {
        var n := [s[0]] + rest;
        assert StripPunctuation(s) == n;
        assert n[0] == s[0] && n[1..] == rest;
        assert NonSpace(n) == (if IsSpace(s[0]) then [] else [s[0]]) + NonSpace(rest);
      } else {
        assert StripPunctuation(s) == rest;
      }
    }
  }

  lemma {:induction false} NonSpaceLower(s: string)
    ensures NonSpace(Lower(s)) == Lower(NonSpace(s))
  {
    if s != [] {
      NonSpaceLower(s[1..]);
      assert Lower(s) == [ToLower(s[0])] + Lower(s[1..]);
      assert ([ToLower(s[0])] + Lower(s[1..]))[1..] == Lower(s[1..]);
      if !IsSpace(s[0]) {
        assert NonSpace(s) == [s[0]] + NonSpace(s[1..]);
        assert Lower([s[0]] + NonSpace(s[1..])) == [ToLower(s[0])] + Lower(NonSpace(s[1..]));
      }
    }
  }

  /** Every word character of the input survives `preprocess_text`, lowercased and in order,
      and the output holds nothing else but spaces. */
  lemma PreprocessKeepsWords(text: string)
    requires IsAscii(text)
    ensures NonSpace(Preprocess(text)) == Lower(WordChars(text))
  {
    var c := CollapseSpaces(text);
    var t := StripPunctuation(c);
    NonSpaceLower(t);
    NonSpaceStrip(c);
    WordCharsNonSpace(c);
    CollapseKeepsNonSpace(text);
    WordCharsNonSpace(text);
  }

  /** Character by character, punctuation is the only thing dropped: on text that holds none,
      `preprocess_text` is whitespace collapsing followed by lowercasing. */
  lemma PreprocessWithoutPunctuation(text: string)
    requires IsAscii(text)
    requires forall i :: 0 <= i < |text| ==> IsWordChar(text[i]) || IsSpace(text[i])
    ensures Preprocess(text) == Lower(CollapseSpaces(text))
  {
    var c := CollapseSpaces(text);
    CollapseKeepsNonSpace(text);
    forall i | 0 <= i < |c|
      ensures IsWordChar(c[i]) || IsSpace(c[i])
    {
      if !IsSpace(c[i]) {
        NonSpaceMember(c, c[i]);
        NonSpaceMember(text, c[i]);
      }
    }
    StripClean(c);
  }

  lemma {:induction false} NonSpaceMember(s: string, c: char)
    ensures c in NonSpace(s) <==> c in s && !IsSpace(c)
  {
    if s != [] {
      NonSpaceMember(s[1..], c);
      assert s == [s[0]] + s[1..];
    }
  }

  lemma {:induction false} StripClean(s: string)
    requires forall i :: 0 <= i < |s| ==> IsWordChar(s[i]) || IsSpace(s[i])
    ensures StripPunctuation(s) == s
  {
    if s != [] {
      StripClean(s[1..]);
      assert s == [s[0]] + s[1..];
    }
  }
}
