/** RFC 5424 PARAM-VALUE escaping (section 6.3.3): three replacements in a row. */
module SdEscape {
  import opened Common

  /** str.replace with a one-character pattern. */
  function Replace(s: string, c: char, sub: string): string
  {
    if s == "" then "" else (if s[0] == c then sub else [s[0]]) + Replace(s[1..], c, sub)
  }

  /** audit_forward.escape_sd_value. */
  function EscapeSdValue(s: string): string
  {
    Replace(Replace(Replace(s, '\\', "\\\\"), '"', "\\\""), ']', "\\]")
  }

  predicate IsSpecial(c: char) { c == '\\' || c == '"' || c == ']' }

  /** One character at a time: a backslash in front of each special one. */
  function EscapeEach(s: string): string
  {
    if s == "" then "" else (if IsSpecial(s[0]) then ['\\', s[0]] else [s[0]]) + EscapeEach(s[1..])
  }

  lemma {:induction false} ReplaceConcat(a: string, b: string, c: char, sub: string)
    ensures Replace(a + b, c, sub) == Replace(a, c, sub) + Replace(b, c, sub)
    decreases |a|
  {
    if a == "" {
      assert a + b == b;
    } else {
      assert (a + b)[1..] == a[1..] + b;
      ReplaceConcat(a[1..], b, c, sub);
    }
  }

  lemma ReplaceOne(x: char, c: char, sub: string)
    ensures Replace([x], c, sub) == if x == c then sub else [x]
  {
    assert [x][1..] == "";
  }

  lemma ReplaceTwo(x: char, y: char, c: char, sub: string)
    ensures Replace([x, y], c, sub) == (if x == c then sub else [x]) + (if y == c then sub else [y])
  {
    assert [x, y][1..] == [y];
    ReplaceOne(y, c, sub);
  }

  /** The three passes equal one character-by-character pass: no pass touches what an earlier one added. */
  lemma {:induction false} PassesAreOne(s: string)
    ensures EscapeSdValue(s) == EscapeEach(s)
    decreases |s|
  {
    if s != "" {
      var x, rest := s[0], s[1..];
      PassesAreOne(rest);
      var first := if x == '\\' then "\\\\" else [x];
      var second := if x == '"' then "\\\"" else first;
      var after1, after2 := Replace(rest, '\\', "\\\\"), Replace(Replace(rest, '\\', "\\\\"), '"', "\\\"");
      assert Replace(s, '\\', "\\\\") == first + after1;
      ReplaceConcat(first, after1, '"', "\\\"");
      ReplaceOne(x, '"', "\\\"");
      ReplaceTwo('\\', '\\', '"', "\\\"");
      assert Replace(first, '"', "\\\"") == second;
      ReplaceConcat(second, after2, ']', "\\]");
      ReplaceOne(x, ']', "\\]");
      ReplaceTwo('\\', '\\', ']', "\\]");
      ReplaceTwo('\\', '"', ']', "\\]");
    }
  }

  /** A backslash takes the next character literally. None where a quote or bracket is not escaped,
      or a backslash has nothing special after it. */
  function Unescape(s: string): (r: Option<string>)
  {
    if s == "" then Some("")
    else if s[0] == '\\' then
      if |s| < 2 || !IsSpecial(s[1]) then None else Prepend(s[1], Unescape(s[2..]))
    else if IsSpecial(s[0]) then None
    else Prepend(s[0], Unescape(s[1..]))
  }

  function Prepend(c: char, r: Option<string>): Option<string> { if r.None? then None else Some([c] + r.value) }

  /** The escaped value has no bare quote, bracket or backslash, and reads back as the input. */
  lemma {:induction false} EscapeReadsBack(s: string)
    ensures Unescape(EscapeSdValue(s)) == Some(s)
    decreases |s|
  {
    PassesAreOne(s);
    if s != "" {
      EscapeReadsBack(s[1..]);
      PassesAreOne(s[1..]);
      var step := if IsSpecial(s[0]) then 2 else 1;
      assert EscapeEach(s)[step..] == EscapeEach(s[1..]);
      assert s == [s[0]] + s[1..];
    }
  }
}
