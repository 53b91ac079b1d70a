/**
 * Capture file names and the text of the capture files, as `ImageStore` and its static twin
 * `ImageStoreHelper` build them. The file-system side (directories, writers, flushing) is not
 * modelled: each save returns the name it would open and the text it would write.
 */
module ImageStore {
  import opened Decimal
  import opened Text

  datatype Filetype = TOF | JPEG | MATRIX

  const PREFIX: string := "Capture_Sample_"

  /** The suffix of each file type: none for depth, an extension for the others. */
  function Suffix(ftype: Filetype): (suffix: string)
    ensures suffix == "" <==> ftype == TOF
    ensures suffix != "" ==> suffix[0] == '.' && '.' !in suffix[1..]
  {
    match ftype
    case TOF => ""
    case JPEG => ".jpeg"
    case MATRIX => ".txt"
  }

  /** `getFileName`: the prefix, the sample, '_', the capture and the type's suffix. */
  function FileName(sample: int, capture: int, ftype: Filetype): (name: string)
    ensures StartsWith(name, Stem(sample, capture))
    ensures EndsWith(name, Suffix(ftype))
    ensures |name| == |Stem(sample, capture)| + |Suffix(ftype)|
  {
    Stem(sample, capture) + Suffix(ftype)
  }

  /** The part of a name shared by the three files of one capture. */
  function Stem(sample: int, capture: int): string {
    PREFIX + IntToString(sample) + "_" + IntToString(capture)
  }

  /** A decimal number holds none of the separators the names and lines use. */
  lemma NoSeparatorInNumber(i: int)
    ensures '_' !in IntToString(i) && '.' !in IntToString(i)
    ensures ',' !in IntToString(i) && '\n' !in IntToString(i)
  {
    var s := IntToString(i);
    forall k | 0 <= k < |s|
      ensures s[k] != '_' && s[k] != '.' && s[k] != ',' && s[k] != '\n'
    {
      assert IsDigit(s[k]) || s[k] == '-';
    }
  }

  /** A field ending at the first separator is determined by the text. */
  lemma FieldUnique(a1: string, r1: string, a2: string, r2: string, sep: char)
    requires sep !in a1 && sep !in a2
    requires a1 + [sep] + r1 == a2 + [sep] + r2
    ensures a1 == a2 && r1 == r2
  {
    var t := a1 + [sep] + r1;
    SplitAfterField(a1, sep, r1);
    SplitAfterField(a2, sep, r2);
    assert a1 == Split(t, sep)[0] == a2;
    assert r1 == t[|a1| + 1..] == r2;
  }

  /** Splitting a number and its suffix at '.' gives the number first. */
  lemma NumberBeforeSuffix(n: string, ftype: Filetype)
    requires '.' !in n
    ensures Split(n + Suffix(ftype), '.')[0] == n
  {
    var suffix := Suffix(ftype);
    if suffix != "" {
      assert n + suffix == n + ['.'] + suffix[1..];
      SplitAfterField(n, '.', suffix[1..]);
    } else {
      assert n + suffix == n;
    }
  }

  /** A number followed by a suffix: both are recovered, since numbers hold no '.'. */
  lemma NumberSuffixUnique(n1: string, t1: Filetype, n2: string, t2: Filetype)
    requires '.' !in n1 && '.' !in n2
    requires n1 + Suffix(t1) == n2 + Suffix(t2)
    ensures n1 == n2 && t1 == t2
  {
    var t := n1 + Suffix(t1);
    NumberBeforeSuffix(n1, t1);
    NumberBeforeSuffix(n2, t2);
    assert n1 == Split(t, '.')[0] == n2;
    assert Suffix(t1) == t[|n1|..] == Suffix(t2);
  }

  /** After the prefix, a name is the sample, '_', and the rest. */
  lemma NameAfterPrefix(sample: int, capture: int, ftype: Filetype)
    ensures FileName(sample, capture, ftype)[|PREFIX|..] ==
      IntToString(sample) + ['_'] + (IntToString(capture) + Suffix(ftype))
  {
    var a, b, suffix := IntToString(sample), IntToString(capture), Suffix(ftype);
    assert FileName(sample, capture, ftype) == PREFIX + (a + ['_'] + (b + suffix));
  }

  /** `getFileName` is injective: a name determines its sample, capture and type. */
  lemma FileNameInjective(s1: int, c1: int, t1: Filetype, s2: int, c2: int, t2: Filetype)
    requires FileName(s1, c1, t1) == FileName(s2, c2, t2)
    ensures s1 == s2 && c1 == c2 && t1 == t2
  {
    NameAfterPrefix(s1, c1, t1);
    NameAfterPrefix(s2, c2, t2);
    NoSeparatorInNumber(s1);
    NoSeparatorInNumber(s2);
    NoSeparatorInNumber(c1);
    NoSeparatorInNumber(c2);
    FieldUnique(IntToString(s1), IntToString(c1) + Suffix(t1), IntToString(s2), IntToString(c2) + Suffix(t2), '_');
    NumberSuffixUnique(IntToString(c1), t1, IntToString(c2), t2);
    IntToStringInjective(s1, s2);
    IntToStringInjective(c1, c2);
  }

  /** The depth, image and matrix files of one capture never overwrite one another. */
  lemma CaptureNamesDistinct(sample: int, capture: int)
    ensures FileName(sample, capture, TOF) != FileName(sample, capture, JPEG)
    ensures FileName(sample, capture, TOF) != FileName(sample, capture, MATRIX)
    ensures FileName(sample, capture, JPEG) != FileName(sample, capture, MATRIX)
  {
    if FileName(sample, capture, TOF) == FileName(sample, capture, JPEG) {
      FileNameInjective(sample, capture, TOF, sample, capture, JPEG);
    }
    if FileName(sample, capture, TOF) == FileName(sample, capture, MATRIX) {
      FileNameInjective(sample, capture, TOF, sample, capture, MATRIX);
    }
    if FileName(sample, capture, JPEG) == FileName(sample, capture, MATRIX) {
      FileNameInjective(sample, capture, JPEG, sample, capture, MATRIX);
    }
  }

  /**
   * How `StringBuilder.append` renders a float. `Float.toString` is library-defined, so the
   * model takes it as a parameter and only asks what a reader of the text relies on.
   */
  ghost predicate CsvField(fmt: real -> string) {
    forall r :: CsvSafe(fmt(r))
  }

  lemma FormattedField(fmt: real -> string, r: real)
    requires CsvField(fmt)
    ensures CsvSafe(fmt(r))
  {
  }

  /** A field a comma-separated reader takes back as one token. */
  predicate CsvSafe(field: string) {
    field != "" && ',' !in field && '\n' !in field
  }

  /** The four fields of line i: x, y, depth and confidence percentage. */
  function TofFields(x: int, y: int, d: real, p: real, fmt: real -> string): seq<string> {
    [IntToString(x), IntToString(y), fmt(d), fmt(p)]
  }

  /** Line i as the builder appends it: x ',' y ',' d ',' p. */
  function TofLine(x: int, y: int, d: real, p: real, fmt: real -> string): string {
    IntToString(x) + "," + IntToString(y) + "," + fmt(d) + "," + fmt(p)
  }

  /** A line is its four fields joined by commas. */
  lemma TofLineFields(x: int, y: int, d: real, p: real, fmt: real -> string)
    ensures TofLine(x, y, d, p, fmt) == Join(TofFields(x, y, d, p, fmt), ',')
  {
    JoinFour(IntToString(x), IntToString(y), fmt(d), fmt(p), ',');
  }

  /** The lines of a depth capture file, one per entry of the depth buffer. */
  function TofLines(xs: seq<int>, ys: seq<int>, ds: seq<real>, ps: seq<real>, fmt: real -> string)
    : (lines: seq<string>)
    requires |ds| <= |xs| && |ds| <= |ys| && |ds| <= |ps|
    ensures |lines| == |ds|
    ensures forall i :: 0 <= i < |ds| ==> lines[i] == TofLine(xs[i], ys[i], ds[i], ps[i], fmt)
  {
    seq(|ds|, i requires 0 <= i < |ds| => TofLine(xs[i], ys[i], ds[i], ps[i], fmt))
  }

  /**
   * `saveToFileTOF`: one "x,y,d,p" line with a newline for every index of the depth buffer; the
   * other buffers are read at the same indices, so they must be at least as long.
   */
  method SaveToFileTOF(sample: int, capture: int, xs: seq<int>, ys: seq<int>, ds: seq<real>, ps: seq<real>,
                       fmt: real -> string)
    returns (name: string, text: string)
    requires |ds| <= |xs| && |ds| <= |ys| && |ds| <= |ps|
    ensures name == FileName(sample, capture, TOF)
    ensures text == Unlines(TofLines(xs, ys, ds, ps, fmt))
  {
    name := FileName(sample, capture, TOF);
    ghost var lines := TofLines(xs, ys, ds, ps, fmt);
    var str := "";
    var i := 0;
    while i < |ds|
      invariant 0 <= i <= |ds|
      invariant str == Unlines(lines[..i])
    {
      str := AppendTofLine(str, xs[i], ys[i], ds[i], ps[i], fmt);
      UnlinesSnoc(lines[..i], lines[i]);
      PrefixSnoc(lines, i);
      i := i + 1;
    }
    assert lines[..|ds|] == lines;
    text := str;
  }

  /** The eight appends of one iteration add one line and its newline. */
  method AppendTofLine(before: string, x: int, y: int, d: real, p: real, fmt: real -> string)
    returns (str: string)
    ensures str == before + TofLine(x, y, d, p, fmt) + "\n"
  {
    str := before + IntToString(x);
    str := str + ",";
    str := str + IntToString(y);
    str := str + ",";
    str := str + fmt(d);
    str := str + ",";
    str := str + fmt(p);
    str := str + "\n";
  }

  /** Each line of a depth file tokenizes back into its four fields. */
  lemma TofLineTokens(x: int, y: int, d: real, p: real, fmt: real -> string)
    requires CsvField(fmt)
    ensures Tokens(TofLine(x, y, d, p, fmt)) == TofFields(x, y, d, p, fmt)
    ensures Split(TofLine(x, y, d, p, fmt), ',') == TofFields(x, y, d, p, fmt)
  {
    TofLineFields(x, y, d, p, fmt);
    var f := TofFields(x, y, d, p, fmt);
    NoSeparatorInNumber(x);
    NoSeparatorInNumber(y);
    FormattedField(fmt, d);
    FormattedField(fmt, p);
    TokensJoin(f);
    SplitJoin(f, ',');
  }

  /** A depth file's text reads back, line by line, as the lines that were written. */
  lemma TofTextLines(xs: seq<int>, ys: seq<int>, ds: seq<real>, ps: seq<real>, fmt: real -> string)
    requires |ds| <= |xs| && |ds| <= |ys| && |ds| <= |ps|
    requires CsvField(fmt)
    ensures GetLines(Unlines(TofLines(xs, ys, ds, ps, fmt))) == TofLines(xs, ys, ds, ps, fmt)
  {
    var lines := TofLines(xs, ys, ds, ps, fmt);
    forall k | 0 <= k < |lines|
      ensures '\n' !in lines[k]
    {
      NoSeparatorInNumber(xs[k]);
      NoSeparatorInNumber(ys[k]);
      FormattedField(fmt, ds[k]);
      FormattedField(fmt, ps[k]);
      TofLineFields(xs[k], ys[k], ds[k], ps[k], fmt);
      NoNewlineInJoin(TofFields(xs[k], ys[k], ds[k], ps[k], fmt), ',');
    }
    GetLinesUnlines(lines);
  }

  lemma {:induction false} NoNewlineInJoin(f: seq<string>, sep: char)
    requires |f| >= 1 && sep != '\n'
    requires forall k :: 0 <= k < |f| ==> '\n' !in f[k]
    ensures '\n' !in Join(f, sep)
  {
    if |f| > 1 {
      NoNewlineInJoin(f[1..], sep);
    }
  }

  /** `", ".join` of the formatted elements, as the matrix loop prints them. */
  function MatrixLine(m: seq<real>, fmt: real -> string): string {
    if |m| == 0 then "" else if |m| == 1 then fmt(m[0]) else MatrixLine(m[..|m| - 1], fmt) + ", " + fmt(m[|m| - 1])
  }

  /** The fields a reader gets by splitting a matrix line on ',': each element, after the first one led by a space. */
  function MatrixFields(m: seq<real>, fmt: real -> string): (fields: seq<string>)
    requires |m| >= 1
    ensures |fields| == |m| && fields[0] == fmt(m[0])
    ensures forall k :: 1 <= k < |m| ==> fields[k] == " " + fmt(m[k])
  {
    [fmt(m[0])] + seq(|m| - 1, k requires 0 <= k < |m| - 1 => " " + fmt(m[k + 1]))
  }

  /** Splitting a matrix line on ',' gives back its fields. */
  lemma {:induction false} MatrixLineFields(m: seq<real>, fmt: real -> string)
    requires |m| >= 1 && CsvField(fmt)
    ensures Split(MatrixLine(m, fmt), ',') == MatrixFields(m, fmt)
  {
    if |m| == 1 {
      FormattedField(fmt, m[0]);
    } else {
      var init, last := m[..|m| - 1], " " + fmt(m[|m| - 1]);
      MatrixLineFields(init, fmt);
      MatrixLineSnoc(m, fmt);
      FormattedField(fmt, m[|m| - 1]);
      assert ',' !in last;
      SplitBeforeField(MatrixLine(init, fmt), ',', last);
      MatrixFieldsSnoc(m, fmt);
    }
  }

  /** A longer matrix line is the shorter one, a comma and a space-led field. */
  lemma MatrixLineSnoc(m: seq<real>, fmt: real -> string)
    requires |m| >= 2
    ensures MatrixLine(m, fmt) == MatrixLine(m[..|m| - 1], fmt) + [','] + (" " + fmt(m[|m| - 1]))
  {
    var a, x := MatrixLine(m[..|m| - 1], fmt), fmt(m[|m| - 1]);
    assert MatrixLine(m, fmt) == a + ", " + x;
    assert a + ", " + x == a + [','] + (" " + x);
  }

  lemma MatrixFieldsSnoc(m: seq<real>, fmt: real -> string)
    requires |m| >= 2
    ensures MatrixFields(m, fmt) == MatrixFields(m[..|m| - 1], fmt) + [" " + fmt(m[|m| - 1])]
  {
    var a, b := MatrixFields(m, fmt), MatrixFields(m[..|m| - 1], fmt) + [" " + fmt(m[|m| - 1])];
    assert |a| == |b|;
    forall k | 0 <= k < |a|
      ensures a[k] == b[k]
    {
      if 1 <= k < |m| - 1 {
        assert m[..|m| - 1][k] == m[k];
      }
    }
  }

  /**
   * `saveToFileMatrix`: the projection elements, then a newline, then the view elements and a
   * newline; within a line the elements are separated by ", " and nothing precedes the first.
   */
  method SaveToFileMatrix(sample: int, capture: int, projection: seq<real>, view: seq<real>, fmt: real -> string)
    returns (name: string, text: string)
    ensures name == FileName(sample, capture, MATRIX)
    ensures text == Unlines([MatrixLine(projection, fmt), MatrixLine(view, fmt)])
  {
    name := FileName(sample, capture, MATRIX);
    var line1 := PrintRow(projection, fmt);
    var line2 := PrintRow(view, fmt);
    text := line1 + "\n" + line2 + "\n";
    assert Unlines([line2]) == line2 + "\n";
    assert [line1, line2][1..] == [line2];
  }

  /** One of the two printing loops of `saveToFileMatrix`, without its newline. */
  method PrintRow(m: seq<real>, fmt: real -> string) returns (out: string)
    ensures out == MatrixLine(m, fmt)
  {
    out := "";
    var i := 0;
    while i < |m|
      invariant 0 <= i <= |m|
      invariant out == MatrixLine(m[..i], fmt)
    {
      if i != 0 {
        out := out + ", ";
      }
      out := out + fmt(m[i]);
      assert m[..i + 1][..i] == m[..i];
      i := i + 1;
    }
    assert m[..|m|] == m;
  }
}
