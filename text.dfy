/** The handful of Java and SQL string operations the services rely on. */
module Text {
  import opened Wrappers

  /** `String.trim` removes every character up to U+0020 from both ends. */
  predicate IsTrimmable(c: char)
  {
    c <= ' '
  }

  function TrimStart(s: string): (r: string)
    ensures |r| <= |s| && r == s[|s| - |r|..]
    ensures r == "" || !IsTrimmable(r[0])
    ensures forall i | 0 <= i < |s| - |r| :: IsTrimmable(s[i])
    decreases |s|
  {
    if s != [] && IsTrimmable(s[0]) then TrimStart(s[1..]) else s
  }

  function TrimEnd(s: string): (r: string)
    ensures |r| <= |s| && r == s[..|r|]
    ensures r == "" || !IsTrimmable(r[|r| - 1])
    ensures forall i | |r| <= i < |s| :: IsTrimmable(s[i])
    decreases |s|
  {
    if s != [] && IsTrimmable(s[|s| - 1]) then TrimEnd(s[..|s| - 1]) else s
  }

  /** Java `s.trim()`. */
  function Trim(s: string): string
  {
    TrimEnd(TrimStart(s))
  }

  /** Java `s.trim().isEmpty()`. */
  predicate IsBlank(s: string)
  {
    Trim(s) == ""
  }

  /** A string trims to nothing exactly when every character of it is trimmable. */
  lemma BlankIffAllTrimmable(s: string)
    ensures IsBlank(s) <==> forall i | 0 <= i < |s| :: IsTrimmable(s[i])
  {
    var t := TrimStart(s);
    if IsBlank(s) {
      assert |t| == 0;
    } else {
      var r := Trim(s);
      assert r[0] == t[0];
      assert t[0] == s[|s| - |t|];
    }
  }

  /** The empty string is blank, so a non-blank one has a first character. */
  lemma EmptyIsBlank()
    ensures IsBlank("")
  {
  }

  /** Appending is associative. */
  lemma AppendAssoc(a: string, b: string, c: string)
    ensures a + b + c == a + (b + c)
  {
  }

  /** The three parts of `a + b + c` are where they were put. */
  lemma ConcatParts(a: string, b: string, c: string)
    ensures var s := a + b + c;
      && |s| == |a| + |b| + |c|
      && s[..|a|] == a
      && s[|a|..|a| + |b|] == b
      && s[|a| + |b|..] == c
  {
    var s := a + b + c;
    assert s[..|a|] == a;
    assert s[|a|..|a| + |b|] == b;
    assert s[|a| + |b|..] == c;
  }

  /** Java `s == null || s.trim().isEmpty()`. */
  predicate IsNullOrBlank(s: Option<string>)
  {
    s.None? || IsBlank(s.value)
  }

  function LowerChar(c: char): char
  {
    if 'A' <= c <= 'Z' then (c as int + 32) as char else c
  }

  /** SQL `LOWER`, on the ASCII letters. */
  function Lower(s: string): (r: string)
    ensures |r| == |s|
    ensures forall i | 0 <= i < |s| :: r[i] == LowerChar(s[i])
  {
    seq(|s|, i requires 0 <= i < |s| => LowerChar(s[i]))
  }

  /** `needle` occurs somewhere inside `hay`. */
  predicate Contains(hay: string, needle: string)
  {
    exists k | 0 <= k <= |hay| :: OccursAt(hay, needle, k)
  }

  predicate OccursAt(hay: string, needle: string, k: nat)
  {
    k + |needle| <= |hay| && hay[k..k + |needle|] == needle
  }

  predicate StartsWith(s: string, prefix: string)
  {
    |prefix| <= |s| && s[..|prefix|] == prefix
  }

  /**
   * `LOWER(field) LIKE LOWER(CONCAT('%', search, '%'))`: a NULL column never
   * matches; the search text is taken literally.
   */
  predicate ContainsIgnoreCase(field: Option<string>, search: string)
  {
    field.Some? && Contains(Lower(field.value), Lower(search))
  }

  /** The empty search matches every non-NULL column and no NULL one. */
  lemma EmptySearchMatchesNonNull(field: Option<string>)
    ensures ContainsIgnoreCase(field, "") <==> field.Some?
  {
    if field.Some? {
      assert OccursAt(Lower(field.value), Lower(""), 0);
    }
  }

  /** Matching ignores the case of the search text. */
  lemma SearchCaseInsensitive(field: Option<string>, search: string)
    ensures ContainsIgnoreCase(field, search) == ContainsIgnoreCase(field, Lower(search))
  {
    assert Lower(Lower(search)) == Lower(search);
  }

  /**
   * `(:search IS NULL OR :search = '' OR LOWER(f1) LIKE ... OR ...)`: no
   * search text keeps every row, otherwise one of the columns must contain it.
   */
  predicate MatchesSearch(search: Option<string>, columns: seq<Option<string>>)
  {
    search.None? || search.value == "" || exists i | 0 <= i < |columns| :: ContainsIgnoreCase(columns[i], search.value)
  }

  lemma MatchesSearchOfThree(search: Option<string>, a: Option<string>, b: Option<string>, c: Option<string>)
    ensures MatchesSearch(search, [a, b, c]) <==>
      search.None? || search.value == ""
      || ContainsIgnoreCase(a, search.value) || ContainsIgnoreCase(b, search.value) || ContainsIgnoreCase(c, search.value)
  {
    var cols := [a, b, c];
    assert cols[0] == a && cols[1] == b && cols[2] == c;
  }

  lemma MatchesSearchOfSix(search: Option<string>, a: Option<string>, b: Option<string>, c: Option<string>,
                           d: Option<string>, e: Option<string>, f: Option<string>)
    ensures MatchesSearch(search, [a, b, c, d, e, f]) <==>
      search.None? || search.value == ""
      || ContainsIgnoreCase(a, search.value) || ContainsIgnoreCase(b, search.value) || ContainsIgnoreCase(c, search.value)
      || ContainsIgnoreCase(d, search.value) || ContainsIgnoreCase(e, search.value) || ContainsIgnoreCase(f, search.value)
  {
    var cols := [a, b, c, d, e, f];
    assert cols[0] == a && cols[1] == b && cols[2] == c && cols[3] == d && cols[4] == e && cols[5] == f;
  }
}
