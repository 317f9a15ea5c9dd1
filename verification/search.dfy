/** The text search of src/todo_api/repositories/todo.py: LIKE patterns (section 8.5 of ISO/IEC 9075-2) with '\' as the
    escape character, and the escaping of what a user typed. */
module Search {

  const BACKSLASH := '\\'

  predicate Special(c: char) { c == BACKSLASH || c == '%' || c == '_' }

  /** `str.replace` of one character by a text. */
  function Replace(s: string, c: char, replacement: string): string {
    if s == "" then "" else (if s[0] == c then replacement else [s[0]]) + Replace(s[1..], c, replacement)
  }

  function EscapeLike(value: string): string {
    Replace(Replace(Replace(value, BACKSLASH, [BACKSLASH, BACKSLASH]), '%', [BACKSLASH, '%']), '_', [BACKSLASH, '_'])
  }

  function EscapeEach(value: string): string {
    if value == "" then ""
    else (if Special(value[0]) then [BACKSLASH, value[0]] else [value[0]]) + EscapeEach(value[1..])
  }

  lemma {:induction false} ReplaceConcat(a: string, b: string, c: char, replacement: string)
    ensures Replace(a + b, c, replacement) == Replace(a, c, replacement) + Replace(b, c, replacement)
  {
    if a == "" {
      assert a + b == b;
    } else {
      assert (a + b)[1..] == a[1..] + b;
      ReplaceConcat(a[1..], b, c, replacement);
    }
  }

  lemma ReplaceOne(x: char, c: char, replacement: string)
    ensures Replace([x], c, replacement) == if x == c then replacement else [x]
  {
    assert [x][1..] == "";
  }

  /** The three replacements one after another are one per-character map: none undoes or doubles another. */
  lemma {:induction false} EscapeLikeIsPerCharacter(value: string)
    ensures EscapeLike(value) == EscapeEach(value)
  {
    if value != "" {
      var x, rest := value[0], value[1..];
      EscapeLikeIsPerCharacter(rest);
      assert value == [x] + rest;
      var one := Replace([x], BACKSLASH, [BACKSLASH, BACKSLASH]);
      var two := Replace(one, '%', [BACKSLASH, '%']);
      ReplaceConcat([x], rest, BACKSLASH, [BACKSLASH, BACKSLASH]);
      ReplaceConcat(one, Replace(rest, BACKSLASH, [BACKSLASH, BACKSLASH]), '%', [BACKSLASH, '%']);
      ReplaceConcat(two, Replace(Replace(rest, BACKSLASH, [BACKSLASH, BACKSLASH]), '%', [BACKSLASH, '%']),
                    '_', [BACKSLASH, '_']);
      EscapeOne(x);
    }
  }

  lemma EscapeOne(x: char)
    ensures EscapeLike([x]) == EscapeEach([x])
    ensures EscapeEach([x]) == if Special(x) then [BACKSLASH, x] else [x]
  {
    ReplaceOne(x, BACKSLASH, [BACKSLASH, BACKSLASH]);
    assert [BACKSLASH, BACKSLASH] == [BACKSLASH] + [BACKSLASH];
    ReplaceConcat([BACKSLASH], [BACKSLASH], '%', [BACKSLASH, '%']);
    ReplaceConcat([BACKSLASH], [BACKSLASH], '_', [BACKSLASH, '_']);
    ReplaceOne(BACKSLASH, '%', [BACKSLASH, '%']);
    ReplaceOne(BACKSLASH, '_', [BACKSLASH, '_']);
    ReplaceOne(x, '%', [BACKSLASH, '%']);
    assert [BACKSLASH, '%'] == [BACKSLASH] + ['%'];
    ReplaceConcat([BACKSLASH], ['%'], '_', [BACKSLASH, '_']);
    ReplaceOne('%', '_', [BACKSLASH, '_']);
    ReplaceOne(x, '_', [BACKSLASH, '_']);
  }

  /** LIKE: '%' stands for any text, '_' for any character, an escaped character for itself. A pattern that ends in a
      lone escape character is malformed and matches nothing. */
  predicate Like(pattern: string, text: string)
    decreases |pattern| + |text|
  {
    if pattern == "" then text == ""
    else if pattern[0] == BACKSLASH then
      |pattern| > 1 && text != "" && text[0] == pattern[1] && Like(pattern[2..], text[1..])
    else if pattern[0] == '%' then
      Like(pattern[1..], text) || (text != "" && Like(pattern, text[1..]))
    else text != "" && (pattern[0] == '_' || text[0] == pattern[0]) && Like(pattern[1..], text[1..])
  }

  /** LIKE, by its rules: '%' takes any number of characters, '_' takes one, and any other character, or an escaped one,
      takes itself. */
  lemma {:induction false} LikeMeaning(rest: string, text: string, c: char)
    ensures Like("", text) <==> text == ""
    ensures Like("%" + rest, text) <==> exists i :: 0 <= i <= |text| && Like(rest, text[i..])
    ensures Like("_" + rest, text) <==> text != "" && Like(rest, text[1..])
    ensures Like([BACKSLASH, c] + rest, text) <==> text != "" && text[0] == c && Like(rest, text[1..])
    ensures !Special(c) ==> (Like([c] + rest, text) <==> text != "" && text[0] == c && Like(rest, text[1..]))
  {
    assert ("_" + rest)[1..] == rest && ([BACKSLASH, c] + rest)[2..] == rest && ([c] + rest)[1..] == rest;
    PercentMeaning(rest, text);
  }

  lemma {:induction false} PercentMeaning(rest: string, text: string)
    ensures Like("%" + rest, text) <==> exists i :: 0 <= i <= |text| && Like(rest, text[i..])
  {
    assert ("%" + rest)[1..] == rest && text[0..] == text;
    if text != "" {
      PercentMeaning(rest, text[1..]);
      forall i | 0 <= i <= |text[1..]| ensures text[1..][i..] == text[i + 1..] {}
      if exists i :: 0 <= i <= |text[1..]| && Like(rest, text[1..][i..]) {
        var i :| 0 <= i <= |text[1..]| && Like(rest, text[1..][i..]);
        assert Like(rest, text[i + 1..]);
      }
      if i :| 0 < i <= |text| && Like(rest, text[i..]) {
        assert text[1..][i - 1..] == text[i..];
      }
    }
  }

  /** Without the escaping a search for an underscore would find any character. */
  lemma EscapingIsNeeded()
    ensures Like("%_%", "a") && !Contains("a", "_") && !Like("%" + EscapeLike("_") + "%", "a")
  {
    EscapingPreservesMeaning("_", "a");
    assert "%_%"[1..] == "_%" && "_%"[1..] == "%" && "a"[1..] == "";
    PercentMatchesAll("");
    assert Like("_%", "a");
  }

  ghost predicate Contains(text: string, part: string) {
    exists i :: 0 <= i <= |text| && part <= text[i..]
  }

  lemma {:induction false} PercentMatchesAll(text: string)
    ensures Like("%", text)
  {
    if text != "" { PercentMatchesAll(text[1..]); }
  }

  /** An escaped text followed by '%' matches exactly the texts that begin with it. */
  lemma {:induction false} EscapedMatchesPrefix(q: string, text: string)
    ensures Like(EscapeEach(q) + "%", text) <==> q <= text
  {
    if q == "" {
      assert EscapeEach(q) + "%" == "%";
      PercentMatchesAll(text);
    } else {
      var pattern, rest := EscapeEach(q) + "%", EscapeEach(q[1..]) + "%";
      assert pattern == (if Special(q[0]) then [BACKSLASH, q[0]] else [q[0]]) + rest;
      if text != "" {
        EscapedMatchesPrefix(q[1..], text[1..]);
        assert q <= text <==> q[0] == text[0] && q[1..] <= text[1..];
        assert Special(q[0]) ==> pattern[2..] == rest;
        assert !Special(q[0]) ==> pattern[1..] == rest;
      }
    }
  }

  lemma {:induction false} PercentSearches(pattern: string, q: string, text: string)
    requires pattern == "%" + EscapeEach(q) + "%"
    ensures Like(pattern, text) <==> Contains(text, q)
  {
    assert pattern[1..] == EscapeEach(q) + "%";
    EscapedMatchesPrefix(q, text);
    if q <= text { assert q <= text[0..]; }
    if text != "" {
      PercentSearches(pattern, q, text[1..]);
      if Contains(text[1..], q) {
        var i :| 0 <= i <= |text[1..]| && q <= text[1..][i..];
        assert text[i + 1..] == text[1..][i..];
      }
      if Contains(text, q) && !(q <= text) {
        var i :| 0 <= i <= |text| && q <= text[i..];
        assert text[i..] == text[1..][i - 1..];
      }
    }
  }

  /** Matching what `_filters` builds is searching for what the user typed, whatever special characters are in it. */
  lemma EscapingPreservesMeaning(q: string, text: string)
    ensures Like("%" + EscapeLike(q) + "%", text) <==> Contains(text, q)
  {
    EscapeLikeIsPerCharacter(q);
    PercentSearches("%" + EscapeEach(q) + "%", q, text);
  }

  // ----- case-insensitive matching -----

  /** Case folding character by character; one character may fold to several. */
  function Fold(fold: char -> string, s: string): string {
    if s == "" then "" else fold(s[0]) + Fold(fold, s[1..])
  }

  predicate Plain(s: string) { forall c <- s :: !Special(c) }

  /** Case folding leaves the special characters alone and makes none of the others. */
  ghost predicate FoldsLetters(fold: char -> string) {
    forall c :: if Special(c) then fold(c) == [c] else Plain(fold(c))
  }

  /** ILIKE: LIKE on the folded pattern and text. */
  predicate ILike(fold: char -> string, pattern: string, text: string) {
    Like(Fold(fold, pattern), Fold(fold, text))
  }

  lemma {:induction false} FoldConcat(fold: char -> string, a: string, b: string)
    ensures Fold(fold, a + b) == Fold(fold, a) + Fold(fold, b)
  {
    if a == "" {
      assert a + b == b;
    } else {
      assert (a + b)[1..] == a[1..] + b;
      FoldConcat(fold, a[1..], b);
    }
  }

  lemma FoldOne(fold: char -> string, c: char)
    ensures Fold(fold, [c]) == fold(c)
  {
    assert [c][1..] == "" && Fold(fold, "") == "";
  }

  lemma {:induction false} EscapeConcat(a: string, b: string)
    ensures EscapeEach(a + b) == EscapeEach(a) + EscapeEach(b)
  {
    if a == "" {
      assert a + b == b;
    } else {
      assert (a + b)[1..] == a[1..] + b;
      EscapeConcat(a[1..], b);
    }
  }

  lemma {:induction false} EscapePlain(s: string)
    requires Plain(s)
    ensures EscapeEach(s) == s
  {
    if s != "" {
      assert s == [s[0]] + s[1..] && !Special(s[0]);
      EscapePlain(s[1..]);
    }
  }

  lemma FoldCommutesWithEscapeOne(fold: char -> string, c: char)
    requires FoldsLetters(fold)
    ensures Fold(fold, EscapeEach([c])) == EscapeEach(fold(c))
  {
    EscapeOne(c);
    FoldOne(fold, c);
    if Special(c) {
      FoldConcat(fold, [BACKSLASH], [c]);
      assert [BACKSLASH] + [c] == [BACKSLASH, c];
      FoldOne(fold, BACKSLASH);
      assert Special(BACKSLASH);
    } else {
      EscapePlain(fold(c));
    }
  }

  lemma {:induction false} FoldCommutesWithEscape(fold: char -> string, q: string)
    requires FoldsLetters(fold)
    ensures Fold(fold, EscapeEach(q)) == EscapeEach(Fold(fold, q))
  {
    if q != "" {
      FoldCommutesWithEscape(fold, q[1..]);
      FoldCommutesWithEscapeOne(fold, q[0]);
      assert q == [q[0]] + q[1..];
      EscapeConcat([q[0]], q[1..]);
      FoldConcat(fold, EscapeEach([q[0]]), EscapeEach(q[1..]));
      EscapeConcat(fold(q[0]), Fold(fold, q[1..]));
    }
  }

  /** A search finds exactly the texts whose folding contains the folded query. */
  lemma SearchFindsSubstrings(fold: char -> string, q: string, text: string)
    requires FoldsLetters(fold)
    ensures ILike(fold, "%" + EscapeLike(q) + "%", text) <==> Contains(Fold(fold, text), Fold(fold, q))
  {
    EscapeLikeIsPerCharacter(q);
    FoldCommutesWithEscape(fold, q);
    FoldConcat(fold, "%" + EscapeEach(q), "%");
    FoldConcat(fold, "%", EscapeEach(q));
    FoldOne(fold, '%');
    assert Special('%') && "%" == ['%'];
    PercentSearches("%" + EscapeEach(Fold(fold, q)) + "%", Fold(fold, q), Fold(fold, text));
  }
}
