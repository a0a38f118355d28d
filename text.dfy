/**
 * String handling used by the loader: Python's `str.strip()`, `str.split()`
 * and `" ".join(...)`, the "text before the first ';'" cut applied to the
 * price, quantity and date fields, PostgreSQL's `TRIM`, and the literals
 * accepted by Python's `int(str)`.
 *
 * Python's whitespace set is approximated by the ASCII characters for which
 * `str.isspace()` is true.
 */
module Text {
  import opened Wrappers

  /** The ASCII characters Python treats as whitespace: tab, LF, VT, FF, CR, the four separators 0x1C-0x1F and space. */
  predicate IsWs(c: char) {
    c == ' ' || ('\t' <= c <= '\r') || ('\U{1C}' <= c <= '\U{1F}')
  }

  /**
   * C's `isspace` in the C locale: tab, LF, VT, FF, CR and space.  These are
   * the only characters `int(str)` skips around its digits; the separators
   * 0x1C-0x1F, which `strip()` removes, are not among them.
   */
  predicate IsCSpace(c: char) {
    c == ' ' || ('\t' <= c <= '\r')
  }

  /** The character sets the trims of the loader remove. */
  datatype Blanks =
    | PyWhitespace  // `str.strip()`
    | CSpace        // around the digits of `int(str)`
    | Spaces        // SQL's one-argument `TRIM`

  predicate Trimmable(c: char, blanks: Blanks) {
    match blanks
    case PyWhitespace => IsWs(c)
    case CSpace => IsCSpace(c)
    case Spaces => c == ' '
  }

  predicate NoWs(s: string) {
    forall i :: 0 <= i < |s| ==> !IsWs(s[i])
  }

  predicate AllWs(s: string) {
    forall i :: 0 <= i < |s| ==> IsWs(s[i])
  }

  // ---------------------------------------------------------------------------
  // Trimming
  // ---------------------------------------------------------------------------

  /** Drops the longest prefix of trimmable characters. */
  function DropLeading(s: string, blanks: Blanks): (r: string)
    ensures |r| <= |s|
    ensures r == [] || !Trimmable(r[0], blanks)
  {
    if s != [] && Trimmable(s[0], blanks) then DropLeading(s[1..], blanks) else s
  }

  /** What `DropLeading` leaves is a suffix, and everything before it was trimmable. */
  lemma {:induction false} DropLeadingShape(s: string, blanks: Blanks)
    ensures DropLeading(s, blanks) == s[|s| - |DropLeading(s, blanks)|..]
    ensures forall i :: 0 <= i < |s| - |DropLeading(s, blanks)| ==> Trimmable(s[i], blanks)
  {
    if s != [] && Trimmable(s[0], blanks) {
      DropLeadingShape(s[1..], blanks);
      assert forall i :: 1 <= i < |s| ==> s[1..][i - 1] == s[i];
    }
  }

  /** Drops the longest suffix of trimmable characters. */
  function DropTrailing(s: string, blanks: Blanks): (r: string)
    ensures |r| <= |s|
    ensures r == [] || !Trimmable(r[|r| - 1], blanks)
  {
    if s != [] && Trimmable(s[|s| - 1], blanks) then DropTrailing(s[..|s| - 1], blanks) else s
  }

  /** What `DropTrailing` leaves is a prefix, and everything after it was trimmable. */
  lemma {:induction false} DropTrailingShape(s: string, blanks: Blanks)
    ensures DropTrailing(s, blanks) == s[..|DropTrailing(s, blanks)|]
    ensures forall i :: |DropTrailing(s, blanks)| <= i < |s| ==> Trimmable(s[i], blanks)
  {
    if s != [] && Trimmable(s[|s| - 1], blanks) {
      DropTrailingShape(s[..|s| - 1], blanks);
    }
  }

  /** A string Python's `strip()` leaves alone: empty, or no whitespace at either end. */
  predicate Stripped(s: string) {
    s == [] || (!IsWs(s[0]) && !IsWs(s[|s| - 1]))
  }

  /** How many leading whitespace characters `strip()` removes. */
  function StripStart(s: string): (i: nat)
    ensures i <= |s|
  {
    |s| - |DropLeading(s, PyWhitespace)|
  }

  /** Python's `s.strip()`: `s` without the whitespace at both ends. */
  function Strip(s: string): (r: string)
    ensures Stripped(r) && |r| <= |s|
  {
    var left := DropLeading(s, PyWhitespace);
    var r := DropTrailing(left, PyWhitespace);
    DropTrailingShape(left, PyWhitespace);
    assert r == [] || left[0] == r[0];
    r
  }

  /**
   * `strip()` keeps the middle part of `s`: what it removes before and after
   * that part is whitespace only.
   */
  lemma StripShape(s: string)
    ensures StripStart(s) + |Strip(s)| <= |s|
    ensures Strip(s) == s[StripStart(s)..StripStart(s) + |Strip(s)|]
    ensures AllWs(s[..StripStart(s)]) && AllWs(s[StripStart(s) + |Strip(s)|..])
  {
    var i := StripStart(s);
    var left := DropLeading(s, PyWhitespace);
    var r := Strip(s);
    DropLeadingShape(s, PyWhitespace);
    DropTrailingShape(left, PyWhitespace);
    assert r == DropTrailing(left, PyWhitespace);
    assert left == s[i..];
    assert r == left[..|r|];
    forall k | 0 <= k < i ensures IsWs(s[k]) {
      assert Trimmable(s[k], PyWhitespace);
    }
    forall k | i + |r| <= k < |s| ensures IsWs(s[k]) {
      assert s[k] == left[k - i];
      assert Trimmable(left[k - i], PyWhitespace);
    }
    var head, tail := s[..i], s[i + |r|..];
    forall k | 0 <= k < |head| ensures IsWs(head[k]) { assert head[k] == s[k]; }
    forall k | 0 <= k < |tail| ensures IsWs(tail[k]) { assert tail[k] == s[i + |r| + k]; }
  }

  /** PostgreSQL's one-argument `TRIM(s)`, which removes spaces only. */
  function SqlTrim(s: string): (r: string)
    ensures r == [] || (r[0] != ' ' && r[|r| - 1] != ' ')
  {
    var left := DropLeading(s, Spaces);
    var r := DropTrailing(left, Spaces);
    DropTrailingShape(left, Spaces);
    assert r == [] || left[0] == r[0];
    r
  }

  /** How many leading spaces `TRIM` removes. */
  function SqlTrimStart(s: string): (i: nat)
    ensures i <= |s|
  {
    |s| - |DropLeading(s, Spaces)|
  }

  /**
   * `TRIM` keeps the middle part of `s`: what it removes before and after
   * that part is spaces only.
   */
  lemma SqlTrimShape(s: string)
    ensures SqlTrimStart(s) + |SqlTrim(s)| <= |s|
    ensures SqlTrim(s) == s[SqlTrimStart(s)..SqlTrimStart(s) + |SqlTrim(s)|]
    ensures forall k :: 0 <= k < SqlTrimStart(s) ==> s[k] == ' '
    ensures forall k :: SqlTrimStart(s) + |SqlTrim(s)| <= k < |s| ==> s[k] == ' '
  {
    var i := SqlTrimStart(s);
    var left := DropLeading(s, Spaces);
    var r := SqlTrim(s);
    DropLeadingShape(s, Spaces);
    DropTrailingShape(left, Spaces);
    assert r == DropTrailing(left, Spaces);
    assert left == s[i..];
    forall k | i + |r| <= k < |s| ensures s[k] == ' ' {
      assert s[k] == left[k - i];
    }
  }

  /** TRIM is the identity on strings without a space at either end. */
  lemma SqlTrimKeeps(s: string)
    requires s == [] || (s[0] != ' ' && s[|s| - 1] != ' ')
    ensures SqlTrim(s) == s
  {
    if s != [] {
      assert !Trimmable(s[0], Spaces) && !Trimmable(s[|s| - 1], Spaces);
    }
    assert DropLeading(s, Spaces) == s;
    assert DropTrailing(s, Spaces) == s;
  }

  // ---------------------------------------------------------------------------
  // The ';' cut of populate_db.py:190, 197 and 198
  // ---------------------------------------------------------------------------

  /** `s.split(";")[0]`: everything before the first semicolon. */
  function BeforeSemicolon(s: string): (r: string)
    ensures |r| <= |s|
  {
    if s == [] || s[0] == ';' then [] else [s[0]] + BeforeSemicolon(s[1..])
  }

  /**
   * The token kept from a price, quantity or date field:
   * `raw.split(";")[0] if raw else ""`, where `raw` is the stripped field.
   */
  function FieldToken(raw: string): (r: string)
    ensures |r| <= |raw|
  {
    if raw != [] then BeforeSemicolon(raw) else ""
  }

  /** The part of `s` before its first ';', or all of `s` when it has none. */
  lemma {:induction false} BeforeSemicolonShape(s: string)
    ensures ';' !in BeforeSemicolon(s)
    ensures BeforeSemicolon(s) == s[..|BeforeSemicolon(s)|]
    ensures ';' in s ==> |BeforeSemicolon(s)| < |s| && s[|BeforeSemicolon(s)|] == ';'
    ensures ';' !in s ==> BeforeSemicolon(s) == s
  {
    if s != [] && s[0] != ';' {
      BeforeSemicolonShape(s[1..]);
      assert s == [s[0]] + s[1..];
      assert ';' in s ==> ';' in s[1..];
    }
  }

  /**
   * The token is the text before the first ';' of the field, the whole field
   * when it has no ';', and empty for an empty field.
   */
  lemma FieldTokenShape(raw: string)
    ensures ';' !in FieldToken(raw)
    ensures FieldToken(raw) == raw[..|FieldToken(raw)|]
    ensures ';' in raw ==> raw[|FieldToken(raw)|] == ';'
    ensures ';' !in raw ==> FieldToken(raw) == raw
    ensures raw == [] ==> FieldToken(raw) == []
  {
    BeforeSemicolonShape(raw);
  }

  // ---------------------------------------------------------------------------
  // Whitespace words: str.split() with no argument, and " ".join
  // ---------------------------------------------------------------------------

  /** The longest prefix of `s` without whitespace. */
  function LeadingWord(s: string): (r: string)
    ensures |r| <= |s| && r == s[..|r|]
    ensures NoWs(r)
    ensures |r| < |s| ==> IsWs(s[|r|])
  {
    if s == [] || IsWs(s[0]) then [] else [s[0]] + LeadingWord(s[1..])
  }

  /** Python's `s.split()`: the maximal runs of non-whitespace, in order. */
  function Words(s: string): (ws: seq<string>)
    ensures ProperWords(ws)
    ensures ws == [] <==> AllWs(s)
    decreases |s|
  {
    if s == [] then []
    else if IsWs(s[0]) then
      var r := Words(s[1..]);
      assert AllWs(s) <==> AllWs(s[1..]) by {
        forall k | 0 <= k < |s[1..]| ensures s[1..][k] == s[k + 1] { }
      }
      r
    else
      var w := LeadingWord(s);
      [w] + Words(s[|w|..])
  }

  /** A word followed by whitespace: the leading word does not look past the whitespace. */
  lemma {:induction false} LeadingWordBeforeWs(a: string, b: string)
    requires b != [] && IsWs(b[0])
    ensures LeadingWord(a + b) == LeadingWord(a)
  {
    if a == [] {
      assert a + b == b;
    } else if !IsWs(a[0]) {
      assert (a + b)[1..] == a[1..] + b;
      LeadingWordBeforeWs(a[1..], b);
    }
  }

  /** A whitespace-free, non-empty string is one word. */
  lemma WordsOfWord(w: string)
    requires w != [] && NoWs(w)
    ensures Words(w) == [w]
  {
    var lw := LeadingWord(w);
    assert lw == w;
    assert w[|w|..] == [];
  }

  /**
   * `split()` cuts at every whitespace character: the words of `a + [c] + b`
   * are those of `a` followed by those of `b`.  With `WordsOfWord` and
   * `Words("") == []` this fixes the words of every string.
   */
  lemma {:induction false} WordsAroundWs(a: string, c: char, b: string)
    requires IsWs(c)
    ensures Words(a + [c] + b) == Words(a) + Words(b)
    decreases |a|
  {
    var s := a + [c] + b;
    if a == [] {
      assert s[1..] == b;
    } else if IsWs(a[0]) {
      assert s[1..] == a[1..] + [c] + b;
      WordsAroundWs(a[1..], c, b);
    } else {
      assert s == a + ([c] + b);
      LeadingWordBeforeWs(a, [c] + b);
      var w := LeadingWord(a);
      assert s[|w|..] == a[|w|..] + [c] + b;
      WordsAroundWs(a[|w|..], c, b);
    }
  }

  /** Python's `" ".join(ws)`. */
  function JoinSpace(ws: seq<string>): string {
    if ws == [] then ""
    else if |ws| == 1 then ws[0]
    else ws[0] + " " + JoinSpace(ws[1..])
  }

  /** `split()` gives back the words `" ".join` was given, when they are proper words. */
  lemma {:induction false} WordsOfJoin(ws: seq<string>)
    requires ProperWords(ws)
    ensures Words(JoinSpace(ws)) == ws
  {
    if |ws| == 1 {
      WordsOfWord(ws[0]);
    } else if |ws| > 1 {
      var rest := JoinSpace(ws[1..]);
      WordsOfJoin(ws[1..]);
      WordsAroundWs(ws[0], ' ', rest);
      WordsOfWord(ws[0]);
      assert JoinSpace(ws) == ws[0] + [' '] + rest;
    }
  }

  /** The words are what `split()` can return: non-empty and free of whitespace. */
  predicate ProperWords(ws: seq<string>) {
    forall i :: 0 <= i < |ws| ==> ws[i] != [] && NoWs(ws[i])
  }

  /**
   * A name that survives `split()` followed by `" ".join` unchanged: its only
   * whitespace characters are single spaces between two non-blank characters.
   */
  predicate Normalized(s: string) {
    forall i :: 0 <= i < |s| && IsWs(s[i]) ==> s[i] == ' ' && 0 < i < |s| - 1 && !IsWs(s[i + 1])
  }

  /** A first and last name as the split below produces them: one word, then a normalized rest. */
  predicate SplitShaped(first: string, last: string) {
    first != [] && NoWs(first) && Normalized(last)
  }

  /**
   * The customer name split of populate_db.py:209-216: the first word, and the
   * remaining words joined by single spaces (empty when there is one word).
   */
  function SplitName(name: string): (r: (string, string))
    requires Words(name) != []
    ensures r.0 == Words(name)[0] && r.0 != [] && NoWs(r.0)
    ensures r.1 == [] <==> |Words(name)| == 1
    ensures Normalized(r.1)
  {
    var parts := Words(name);
    if |parts| == 1 then (parts[0], "")
    else
      JoinSpaceEnds(parts[1..]);
      JoinSpaceNormalized(parts[1..]);
      (parts[0], JoinSpace(parts[1..]))
  }

  /** Joining proper words gives a non-empty string that starts with the first word and ends with the last word's last character. */
  lemma {:induction false} JoinSpaceEnds(ws: seq<string>)
    requires ws != [] && ProperWords(ws)
    ensures |JoinSpace(ws)| >= |ws[0]|
    ensures JoinSpace(ws)[..|ws[0]|] == ws[0]
    ensures JoinSpace(ws)[|JoinSpace(ws)| - 1] == ws[|ws| - 1][|ws[|ws| - 1]| - 1]
  {
    if |ws| > 1 {
      JoinSpaceEnds(ws[1..]);
    }
  }

  /** Whatever `" ".join` builds from proper words is normalized. */
  lemma {:induction false} JoinSpaceNormalized(ws: seq<string>)
    requires ProperWords(ws)
    ensures Normalized(JoinSpace(ws))
  {
    if |ws| > 1 {
      var w := ws[0];
      var rest := JoinSpace(ws[1..]);
      JoinSpaceNormalized(ws[1..]);
      JoinSpaceEnds(ws[1..]);
      var s := w + " " + rest;
      assert JoinSpace(ws) == s;
      forall i | 0 <= i < |s| && IsWs(s[i])
        ensures s[i] == ' ' && 0 < i < |s| - 1 && !IsWs(s[i + 1])
      {
        if i == |w| {
          assert s[i + 1] == rest[0] == ws[1][0];
        } else {
          assert s[i] == rest[i - |w| - 1];
          if i + 1 < |s| {
            assert s[i + 1] == rest[i - |w|];
          }
        }
      }
    } else if |ws| == 1 {
      assert JoinSpace(ws) == ws[0];
    }
  }

  /** A suffix of a normalized string that starts with a non-blank is normalized. */
  lemma NormalizedSuffix(s: string, k: nat)
    requires Normalized(s) && k < |s| && !IsWs(s[k])
    ensures Normalized(s[k..])
  {
    var t := s[k..];
    forall i | 0 <= i < |t| && IsWs(t[i])
      ensures t[i] == ' ' && 0 < i < |t| - 1 && !IsWs(t[i + 1])
    {
      assert t[i] == s[k + i];
      assert k + i + 1 < |s|;
      assert t[i + 1] == s[k + i + 1];
    }
  }

  /** In a normalized string, the first word is followed by one space and a non-blank. */
  lemma NormalizedWordGap(s: string, w: string)
    requires Normalized(s) && s != [] && w == LeadingWord(s) && |w| < |s|
    ensures w != [] && NoWs(w) && w == s[..|w|]
    ensures |w| + 1 < |s| && s[|w|] == ' ' && !IsWs(s[|w| + 1])
    ensures Normalized(s[|w| + 1..])
  {
    assert !IsWs(s[0]);
    assert IsWs(s[|w|]);
    NormalizedSuffix(s, |w| + 1);
  }

  /** A string whose prefix `w` is followed by a space is `w`, the space, and the rest. */
  lemma SplitAtSpace(s: string, w: string)
    requires |w| + 1 <= |s| && w == s[..|w|] && s[|w|] == ' '
    ensures s == w + " " + s[|w| + 1..]
  {
    assert s[..|w| + 1] == w + " ";
    assert s == s[..|w| + 1] + s[|w| + 1..];
  }

  /**
   * A normalized string with more than one word is its first word, a single
   * space, and a normalized rest that holds the remaining words.
   */
  lemma NormalizedNextWord(s: string, w: string)
    requires Normalized(s) && s != [] && w == LeadingWord(s) && |w| < |s|
    ensures |w| + 1 < |s| && s == w + " " + s[|w| + 1..]
    ensures Normalized(s[|w| + 1..]) && Words(s[|w| + 1..]) != []
    ensures Words(s) == [w] + Words(s[|w| + 1..])
  {
    NormalizedWordGap(s, w);
    SplitAtSpace(s, w);
    WordThenRest(s, w, s[|w| + 1..]);
  }

  /** One word, a space, then a string that starts with a non-blank: the word, then the words of the rest. */
  lemma WordThenRest(s: string, w: string, t: string)
    requires w != [] && NoWs(w) && s == w + " " + t && t != [] && !IsWs(t[0])
    ensures Words(t) != [] && Words(s) == [w] + Words(t)
  {
    assert !AllWs(t);
    WordsAroundWs(w, ' ', t);
    WordsOfWord(w);
  }

  /** `" ".join(s.split())` gives back a normalized string. */
  lemma {:induction false} WordsOfNormalized(s: string)
    requires Normalized(s)
    ensures JoinSpace(Words(s)) == s
    decreases |s|
  {
    if s != [] {
      assert !IsWs(s[0]);
      var w := LeadingWord(s);
      assert Words(s) == [w] + Words(s[|w|..]);
      if |w| == |s| {
        assert s[|w|..] == [];
      } else {
        NormalizedNextWord(s, w);
        var t := s[|w| + 1..];
        WordsOfNormalized(t);
        assert JoinSpace(Words(s)) == w + " " + JoinSpace(Words(t));
      }
    }
  }

  /** `" ".join(s.split()) == s` holds exactly for the normalized strings. */
  lemma RejoinIffNormalized(s: string)
    ensures JoinSpace(Words(s)) == s <==> Normalized(s)
  {
    JoinSpaceNormalized(Words(s));
    if Normalized(s) {
      WordsOfNormalized(s);
    }
  }

  /** A one-word name: `TRIM(first || ' ' || '')` is the word itself. */
  lemma FullNameOfOneWord(first: string)
    requires first != [] && NoWs(first)
    ensures SqlTrim(first + " " + "") == first
  {
    var s := first + " " + "";
    assert s[0] == first[0] && s[..|s| - 1] == first;
    assert !Trimmable(first[|first| - 1], Spaces);
    assert DropLeading(s, Spaces) == s;
    assert DropTrailing(first, Spaces) == first;
    assert DropTrailing(s, Spaces) == DropTrailing(s[..|s| - 1], Spaces);
  }

  /** `TRIM(first || ' ' || last)` for the two halves of a word list is the words joined by single spaces. */
  lemma FullNameOfWords(parts: seq<string>)
    requires parts != [] && ProperWords(parts)
    ensures SqlTrim(parts[0] + " " + (if |parts| == 1 then "" else JoinSpace(parts[1..]))) == JoinSpace(parts)
  {
    var first := parts[0];
    if |parts| == 1 {
      FullNameOfOneWord(first);
    } else {
      JoinSpaceEnds(parts);
      var j := JoinSpace(parts);
      assert j == first + " " + JoinSpace(parts[1..]);
      var lastWord := parts[|parts| - 1];
      assert !IsWs(j[0]) by { assert j[0] == first[0]; }
      assert !IsWs(j[|j| - 1]) by { assert lastWord != [] && NoWs(lastWord); }
      SqlTrimKeeps(j);
    }
  }

  /**
   * The name the order join of populate_db.py:346 rebuilds from a customer,
   * `TRIM(FirstName || ' ' || LastName)`, is `" ".join(name.split())`.
   */
  lemma FullNameOfSplit(name: string)
    requires Words(name) != []
    ensures SqlTrim(SplitName(name).0 + " " + SplitName(name).1) == JoinSpace(Words(name))
  {
    FullNameOfWords(Words(name));
  }

  /**
   * The full name `TRIM(first || ' ' || last)` of a customer whose name has
   * the shape the split gives (a first word and a normalized rest) is
   * normalized.
   */
  lemma FullNameNormalized(first: string, last: string)
    requires SplitShaped(first, last)
    ensures Normalized(SqlTrim(first + " " + last))
  {
    if last == [] {
      FullNameOfOneWord(first);
      assert Normalized(first);
    } else {
      assert !IsWs(last[0]);
      WordsOfNormalized(last);
      var parts := [first] + Words(last);
      assert parts[1..] == Words(last) && |parts| > 1;
      FullNameOfWords(parts);
      JoinSpaceNormalized(parts);
    }
  }

  /**
   * A stripped, non-blank input name matches the customer built from it under
   * the order join of populate_db.py:346 exactly when the name is normalized:
   * a name with any inner whitespace other than single spaces never matches.
   */
  lemma SplitNameRejoins(name: string)
    requires name != [] && Stripped(name)
    ensures Words(name) != []
    ensures SqlTrim(SplitName(name).0 + " " + SplitName(name).1) == SqlTrim(name) <==> Normalized(name)
  {
    assert !AllWs(name) by { assert !IsWs(name[0]); }
    FullNameOfSplit(name);
    SqlTrimKeeps(name);
    RejoinIffNormalized(name);
  }

  // ---------------------------------------------------------------------------
  // Integer literals accepted by Python's int(str)
  // ---------------------------------------------------------------------------

  predicate IsDigit(c: char) {
    '0' <= c <= '9'
  }

  /** Position `i` of `s` holds a digit, or an underscore between two digits. */
  predicate DigitOrJoiner(s: string, i: nat)
    requires i < |s|
  {
    IsDigit(s[i]) || (s[i] == '_' && 0 < i < |s| - 1 && IsDigit(s[i - 1]) && IsDigit(s[i + 1]))
  }

  /** Decimal digits, with single underscores allowed between two digits. */
  predicate DigitRun(s: string) {
    s != [] && forall i: nat :: i < |s| ==> DigitOrJoiner(s, i)
  }

  /** A character that is neither a digit nor an underscore ends any digit run. */
  lemma NotDigitRun(s: string, i: nat)
    requires i < |s| && !IsDigit(s[i]) && s[i] != '_'
    ensures !DigitRun(s)
  {
    assert !DigitOrJoiner(s, i);
  }

  /** The value of the digits of `s`, underscores ignored. */
  function DigitsValue(s: string): (n: nat) {
    if s == [] then 0
    else if s[|s| - 1] == '_' then DigitsValue(s[..|s| - 1])
    else 10 * DigitsValue(s[..|s| - 1]) + (if IsDigit(s[|s| - 1]) then (s[|s| - 1] - '0') as nat else 0)
  }

  /** The text `int(t)` reads: `t` without the C whitespace at both ends. */
  function IntTrim(t: string): (r: string)
    ensures r == [] || (!IsCSpace(r[0]) && !IsCSpace(r[|r| - 1]))
  {
    var left := DropLeading(t, CSpace);
    var r := DropTrailing(left, CSpace);
    DropTrailingShape(left, CSpace);
    assert r == [] || left[0] == r[0];
    r
  }

  /** What `int(t)` accepts: surrounding C whitespace, an optional sign, then a digit run. */
  predicate IsIntLiteral(t: string) {
    var u := IntTrim(t);
    u != [] && (if u[0] == '+' || u[0] == '-' then DigitRun(u[1..]) else DigitRun(u))
  }

  /** `int(t)`, or None where Python raises ValueError. */
  function ParseInt(t: string): (r: Option<int>)
    ensures r.Some? <==> IsIntLiteral(t)
  {
    if !IsIntLiteral(t) then None
    else
      var u := IntTrim(t);
      var magnitude: int := if u[0] == '-' || u[0] == '+' then DigitsValue(u[1..]) else DigitsValue(u);
      Some(if u[0] == '-' then -magnitude else magnitude)
  }

  function DigitChar(d: nat): (c: char)
    requires d < 10
    ensures IsDigit(c) && (c - '0') as nat == d
  {
    '0' + d as char
  }

  /** The canonical decimal spelling of a natural number. */
  function ShowNat(n: nat): (s: string)
    decreases n
  {
    if n < 10 then [DigitChar(n)] else ShowNat(n / 10) + [DigitChar(n % 10)]
  }

  /** The canonical decimal spelling of an integer, as Python's `str(n)`. */
  function ShowInt(n: int): string {
    if n < 0 then "-" + ShowNat(-n) else ShowNat(n)
  }

  lemma {:induction false} ShowNatDigits(n: nat)
    ensures ShowNat(n) != []
    ensures forall i :: 0 <= i < |ShowNat(n)| ==> IsDigit(ShowNat(n)[i])
    ensures DigitRun(ShowNat(n))
    ensures DigitsValue(ShowNat(n)) == n
    decreases n
  {
    var s := ShowNat(n);
    if n >= 10 {
      ShowNatDigits(n / 10);
      assert s[..|s| - 1] == ShowNat(n / 10);
      assert forall i :: 0 <= i < |s| - 1 ==> s[i] == ShowNat(n / 10)[i];
    }
  }

  /** Reading back the decimal spelling of any integer gives that integer. */
  lemma ParseShowInt(n: int)
    ensures ParseInt(ShowInt(n)) == Some(n)
  {
    var s := ShowInt(n);
    var m: nat := if n < 0 then -n else n;
    var d := ShowNat(m);
    ShowNatDigits(m);
    assert IsDigit(d[0]) && IsDigit(d[|d| - 1]);
    if n < 0 {
      assert s == "-" + d && s[1..] == d && s[|s| - 1] == d[|d| - 1];
    } else {
      assert s == d;
    }
    IntTrimKeeps(s);
    assert IsIntLiteral(s);
  }

  lemma IntTrimKeeps(s: string)
    requires s == [] || (!IsCSpace(s[0]) && !IsCSpace(s[|s| - 1]))
    ensures IntTrim(s) == s
  {
    assert DropLeading(s, CSpace) == s;
    assert DropTrailing(s, CSpace) == s;
  }

  /**
   * A digit followed by a file separator: `strip()` removes the separator, but
   * `int()` does not skip it and rejects the token.
   */
  lemma SeparatorNotSkipped(d: char)
    requires IsDigit(d)
    ensures Strip([d, '\U{1C}']) == [d]
    ensures ParseInt([d, '\U{1C}']) == None
  {
    var t := [d, '\U{1C}'];
    assert DropLeading(t, PyWhitespace) == t;
    assert DropTrailing(t, PyWhitespace) == DropTrailing([d], PyWhitespace) == [d];
    assert DropLeading(t, CSpace) == t;
    assert DropTrailing(t, CSpace) == t;
    var u := IntTrim(t);
    assert u == t;
    NotDigitRun(u, 1);
    assert !IsIntLiteral(t);
  }

  // ---------------------------------------------------------------------------
  // The value int() gives every literal it accepts
  // ---------------------------------------------------------------------------

  /** A prefix of trimmable characters makes no difference to `DropLeading`. */
  lemma {:induction false} DropLeadingPrefix(pre: string, x: string, blanks: Blanks)
    requires forall i :: 0 <= i < |pre| ==> Trimmable(pre[i], blanks)
    ensures DropLeading(pre + x, blanks) == DropLeading(x, blanks)
    decreases |pre|
  {
    if pre != [] {
      assert (pre + x)[1..] == pre[1..] + x;
      DropLeadingPrefix(pre[1..], x, blanks);
    } else {
      assert pre + x == x;
    }
  }

  /** A suffix of trimmable characters makes no difference to `DropTrailing`. */
  lemma {:induction false} DropTrailingSuffix(x: string, post: string, blanks: Blanks)
    requires forall i :: 0 <= i < |post| ==> Trimmable(post[i], blanks)
    ensures DropTrailing(x + post, blanks) == DropTrailing(x, blanks)
    decreases |post|
  {
    if post != [] {
      var init := post[..|post| - 1];
      assert (x + post)[..|x + post| - 1] == x + init;
      DropTrailingSuffix(x, init, blanks);
    } else {
      assert x + post == x;
    }
  }

  /** Once `DropLeading` reaches a character it keeps, what follows is kept whole. */
  lemma {:induction false} DropLeadingAppend(x: string, y: string, blanks: Blanks)
    requires DropLeading(x, blanks) != []
    ensures DropLeading(x + y, blanks) == DropLeading(x, blanks) + y
    decreases |x|
  {
    assert x != [];
    if Trimmable(x[0], blanks) {
      assert (x + y)[1..] == x[1..] + y;
      DropLeadingAppend(x[1..], y, blanks);
    }
  }

  predicate AllCSpace(s: string) {
    forall i :: 0 <= i < |s| ==> IsCSpace(s[i])
  }

  /** C whitespace around a token changes nothing `int()` reads. */
  lemma ParseIntPadded(pre: string, t: string, post: string)
    requires AllCSpace(pre) && AllCSpace(post)
    ensures IntTrim(pre + t + post) == IntTrim(t)
    ensures ParseInt(pre + t + post) == ParseInt(t)
  {
    assert pre + t + post == pre + (t + post);
    DropLeadingPrefix(pre, t + post, CSpace);
    if DropLeading(t, CSpace) != [] {
      DropLeadingAppend(t, post, CSpace);
      DropTrailingSuffix(DropLeading(t, CSpace), post, CSpace);
    } else {
      DropLeadingShape(t, CSpace);
      DropLeadingPrefix(t, post, CSpace);
      DropLeadingPrefix(post, [], CSpace);
      assert post + [] == post;
    }
  }

  /** A digit run starts and ends with a digit. */
  lemma DigitRunEnds(d: string)
    requires DigitRun(d)
    ensures IsDigit(d[0]) && IsDigit(d[|d| - 1])
  {
    assert DigitOrJoiner(d, 0);
    assert DigitOrJoiner(d, |d| - 1);
  }

  /** `int()` reads an unsigned digit run as the value of its digits. */
  lemma ParseDigitRun(d: string)
    requires DigitRun(d)
    ensures ParseInt(d) == Some(DigitsValue(d) as int)
  {
    DigitRunEnds(d);
    IntTrimKeeps(d);
  }

  /** A leading `+` changes nothing, and a leading `-` negates. */
  lemma ParseIntSigned(d: string)
    requires DigitRun(d)
    ensures ParseInt("+" + d) == ParseInt(d)
    ensures ParseInt(d).Some? && ParseInt("-" + d) == Some(-ParseInt(d).value)
  {
    ParseDigitRun(d);
    DigitRunEnds(d);
    var plus, minus := "+" + d, "-" + d;
    assert plus[1..] == d && plus[|plus| - 1] == d[|d| - 1];
    assert minus[1..] == d && minus[|minus| - 1] == d[|d| - 1];
    IntTrimKeeps(plus);
    IntTrimKeeps(minus);
  }

  lemma {:induction false} DigitsValueLeadingZero(s: string)
    ensures DigitsValue("0" + s) == DigitsValue(s)
    decreases |s|
  {
    var z := "0" + s;
    if s == [] {
      assert z[..|z| - 1] == [];
    } else {
      var init := s[..|s| - 1];
      assert z[..|z| - 1] == "0" + init && z[|z| - 1] == s[|s| - 1];
      DigitsValueLeadingZero(init);
    }
  }

  lemma DigitRunLeadingZero(d: string)
    requires DigitRun(d)
    ensures DigitRun("0" + d)
  {
    var z := "0" + d;
    forall i: nat | i < |z| ensures DigitOrJoiner(z, i) {
      if i > 0 {
        assert DigitOrJoiner(d, i - 1);
        assert z[i] == d[i - 1];
        if i > 1 { assert z[i - 1] == d[i - 2]; }
        if i + 1 < |z| { assert z[i + 1] == d[i]; }
      }
    }
  }

  /** A leading zero changes nothing, with or without a sign before it. */
  lemma ParseIntLeadingZero(d: string)
    requires DigitRun(d)
    ensures DigitRun("0" + d)
    ensures ParseInt("0" + d) == ParseInt(d)
    ensures ParseInt("-0" + d) == ParseInt("-" + d)
  {
    var z := "0" + d;
    DigitRunLeadingZero(d);
    DigitsValueLeadingZero(d);
    ParseDigitRun(d);
    ParseDigitRun(z);
    assert ParseInt(z) == ParseInt(d);
    ParseIntSigned(d);
    ParseIntSigned(z);
    assert "-0" + d == "-" + z;
    assert ParseInt("-" + z) == Some(-ParseInt(z).value);
  }

  lemma {:induction false} DigitsValueSkipsUnderscore(x: string, y: string)
    ensures DigitsValue(x + "_" + y) == DigitsValue(x + y)
    decreases |y|
  {
    if y == [] {
      assert x + "_" + y == x + "_" && (x + "_")[..|x|] == x && x + y == x;
    } else {
      var init := y[..|y| - 1];
      var s, r := x + "_" + y, x + y;
      assert s[..|s| - 1] == x + "_" + init && s[|s| - 1] == y[|y| - 1];
      assert r[..|r| - 1] == x + init && r[|r| - 1] == y[|y| - 1];
      DigitsValueSkipsUnderscore(x, init);
    }
  }

  /** An underscore between two digits changes nothing: `int("1_000") == int("1000")`. */
  lemma ParseIntUnderscore(x: string, y: string)
    requires DigitRun(x + "_" + y)
    ensures DigitRun(x + y)
    ensures ParseInt(x + "_" + y) == ParseInt(x + y)
  {
    var s, r, k := x + "_" + y, x + y, |x|;
    assert s[k] == '_' && DigitOrJoiner(s, k);
    assert 0 < k < |s| - 1 && IsDigit(s[k - 1]) && IsDigit(s[k + 1]);
    forall i: nat | i < |r| ensures DigitOrJoiner(r, i) {
      if i < k {
        assert r[i] == s[i] && DigitOrJoiner(s, i);
        if i + 1 < k { assert r[i + 1] == s[i + 1]; }
        if i > 0 { assert r[i - 1] == s[i - 1]; }
      } else {
        assert r[i] == s[i + 1] && DigitOrJoiner(s, i + 1);
        if i + 1 < |r| { assert r[i + 1] == s[i + 2]; }
        if i > k { assert r[i - 1] == s[i]; }
      }
    }
    DigitsValueSkipsUnderscore(x, y);
    ParseDigitRun(s);
    ParseDigitRun(r);
  }
}
