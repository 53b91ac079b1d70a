/**
 * String splitting as the readers of the capture files do it: Python's
 * `str.split(sep)`, C++ `std::getline` over a whole file, and boost's
 * `char_separator` tokenizer with its default of dropping empty tokens.
 */
module Text {
  predicate StartsWith(s: string, prefix: string) {
    |prefix| <= |s| && s[..|prefix|] == prefix
  }

  predicate EndsWith(s: string, suffix: string) {
    |suffix| <= |s| && s[|s| - |suffix|..] == suffix
  }

  /** Python's `s.split(sep)` for a one-character separator: empty fields are kept. */
  function Split(s: string, sep: char): (parts: seq<string>)
    ensures |parts| >= 1
    ensures forall k :: 0 <= k < |parts| ==> sep !in parts[k]
    ensures sep !in s ==> parts == [s]
  {
    if |s| == 0 then [""]
    else if s[0] == sep then [""] + Split(s[1..], sep)
    else
      var rest := Split(s[1..], sep);
      assert s == [s[0]] + s[1..];
      [[s[0]] + rest[0]] + rest[1..]
  }

  /** `sep.join(parts)`. */
  function Join(parts: seq<string>, sep: char): string
    requires |parts| >= 1
  {
    if |parts| == 1 then parts[0] else parts[0] + [sep] + Join(parts[1..], sep)
  }

  /** Four fields joined. */
  lemma JoinFour(a: string, b: string, c: string, d: string, sep: char)
    ensures Join([a, b, c, d], sep) == a + [sep] + b + [sep] + c + [sep] + d
  {
    var f := [a, b, c, d];
    assert f[1..] == [b, c, d] && f[1..][1..] == [c, d] && f[1..][1..][1..] == [d];
    assert Join([c, d], sep) == c + [sep] + d;
    assert Join([b, c, d], sep) == b + [sep] + (c + [sep] + d);
  }

  lemma {:induction false} SplitAfterField(field: string, sep: char, rest: string)
    requires sep !in field
    ensures Split(field + [sep] + rest, sep) == [field] + Split(rest, sep)
  {
    if |field| == 0 {
      assert field + [sep] + rest == [sep] + rest;
      assert ([sep] + rest)[1..] == rest;
    } else {
      var s := field + [sep] + rest;
      assert s[0] == field[0] && s[1..] == field[1..] + [sep] + rest;
      SplitAfterField(field[1..], sep, rest);
      var r := Split(s[1..], sep);
      assert r[0] == field[1..] && r[1..] == Split(rest, sep);
      assert Split(s, sep) == [[s[0]] + r[0]] + r[1..];
      assert [field[0]] + field[1..] == field;
    }
  }

  /** A last field after a separator becomes one more part. */
  lemma {:induction false} SplitBeforeField(s: string, sep: char, last: string)
    requires sep !in last
    ensures Split(s + [sep] + last, sep) == Split(s, sep) + [last]
  {
    var t := s + [sep] + last;
    if |s| == 0 {
      assert t == [sep] + last && t[1..] == last;
    } else {
      assert t[0] == s[0] && t[1..] == s[1..] + [sep] + last;
      SplitBeforeField(s[1..], sep, last);
    }
  }

  /** Splitting a join gives back the fields, provided none contains the separator. */
  lemma {:induction false} SplitJoin(parts: seq<string>, sep: char)
    requires |parts| >= 1
    requires forall k :: 0 <= k < |parts| ==> sep !in parts[k]
    ensures Split(Join(parts, sep), sep) == parts
  {
    if |parts| > 1 {
      SplitJoin(parts[1..], sep);
      SplitAfterField(parts[0], sep, Join(parts[1..], sep));
      assert [parts[0]] + parts[1..] == parts;
    }
  }

  /** The text before the first newline (all of it when there is none). */
  function FirstLine(text: string): (line: string)
    ensures |line| <= |text| && line == text[..|line|] && '\n' !in line
    ensures |line| < |text| ==> text[|line|] == '\n'
  {
    if |text| == 0 || text[0] == '\n' then "" else [text[0]] + FirstLine(text[1..])
  }

  /** The lines `std::getline` yields from a whole file's text, in order. */
  function GetLines(text: string): (lines: seq<string>)
    ensures forall k :: 0 <= k < |lines| ==> '\n' !in lines[k]
  {
    if |text| == 0 then []
    else
      var line := FirstLine(text);
      if |line| == |text| then [text] else [line] + GetLines(text[|line| + 1..])
  }

  /** A text made of lines each ending in a newline. */
  function Unlines(lines: seq<string>): string {
    if |lines| == 0 then "" else lines[0] + "\n" + Unlines(lines[1..])
  }

  /** One more element of a prefix. */
  lemma PrefixSnoc<T>(s: seq<T>, i: nat)
    requires i < |s|
    ensures s[..i + 1] == s[..i] + [s[i]]
  {
  }

  /** Appending a line to the list appends it, with its newline, to the text. */
  lemma {:induction false} UnlinesSnoc(lines: seq<string>, line: string)
    ensures Unlines(lines + [line]) == Unlines(lines) + line + "\n"
  {
    if |lines| > 0 {
      assert (lines + [line])[1..] == lines[1..] + [line];
      UnlinesSnoc(lines[1..], line);
    }
  }

  lemma {:induction false} FirstLineOf(line: string, rest: string)
    requires '\n' !in line
    ensures FirstLine(line + "\n" + rest) == line
  {
    if |line| > 0 {
      var t := line + "\n" + rest;
      assert t[0] == line[0] && t[1..] == line[1..] + "\n" + rest;
      FirstLineOf(line[1..], rest);
      assert [line[0]] + line[1..] == line;
    }
  }

  /** `std::getline` gives back exactly the lines that were written with a newline after each. */
  lemma {:induction false} GetLinesUnlines(lines: seq<string>)
    requires forall k :: 0 <= k < |lines| ==> '\n' !in lines[k]
    ensures GetLines(Unlines(lines)) == lines
  {
    if |lines| > 0 {
      var text := Unlines(lines);
      assert text == lines[0] + "\n" + Unlines(lines[1..]);
      FirstLineOf(lines[0], Unlines(lines[1..]));
      assert text[|lines[0]| + 1..] == Unlines(lines[1..]);
      GetLinesUnlines(lines[1..]);
      assert [lines[0]] + lines[1..] == lines;
    }
  }

  /** boost `char_separator<char>(",")`: comma-separated tokens, empty ones dropped. */
  function Tokens(line: string): seq<string> {
    NonEmpty(Split(line, ','))
  }

  function NonEmpty(parts: seq<string>): (r: seq<string>)
    ensures |r| <= |parts|
    ensures forall k :: 0 <= k < |r| ==> r[k] != ""
  {
    if |parts| == 0 then []
    else if parts[0] == "" then NonEmpty(parts[1..])
    else [parts[0]] + NonEmpty(parts[1..])
  }

  lemma {:induction false} NonEmptyKeeps(parts: seq<string>)
    requires forall k :: 0 <= k < |parts| ==> parts[k] != ""
    ensures NonEmpty(parts) == parts
  {
    if |parts| > 0 {
      NonEmptyKeeps(parts[1..]);
      assert [parts[0]] + parts[1..] == parts;
    }
  }

  /** Non-empty comma-free fields joined by commas tokenize back to the same fields. */
  lemma TokensJoin(parts: seq<string>)
    requires |parts| >= 1
    requires forall k :: 0 <= k < |parts| ==> ',' !in parts[k] && parts[k] != ""
    ensures Tokens(Join(parts, ',')) == parts
  {
    SplitJoin(parts, ',');
    NonEmptyKeeps(parts);
  }
}
