/** The operations of Go's `strings` package that the resources read and edit host files with. */
module Text {
  import Sequences

  /** Unicode white space, as `unicode.IsSpace` defines it. */
  predicate IsSpace(c: char) {
    || '\t' <= c <= '\r' || c == ' ' || c == '\U{0085}' || c == '\U{00A0}' || c == '\U{1680}'
    || '\U{2000}' <= c <= '\U{200A}' || c == '\U{2028}' || c == '\U{2029}' || c == '\U{202F}'
    || c == '\U{205F}' || c == '\U{3000}'
  }

  datatype Separator = Only(c: char) | White {
    predicate Matches(x: char) {
      match this
      case Only(c) => x == c
      case White => IsSpace(x)
    }
  }

  /** The pieces of `s` between separators; always at least one. */
  function SplitOn(s: string, sep: Separator): (parts: seq<string>)
    ensures |parts| >= 1
  {
    if s == [] then [[]]
    else if sep.Matches(s[0]) then [[]] + SplitOn(s[1..], sep)
    else GrowFirst(s[0], SplitOn(s[1..], sep))
  }

  function GrowFirst(c: char, parts: seq<string>): (r: seq<string>)
    requires |parts| >= 1
    ensures |r| == |parts|
  {
    [[c] + parts[0]] + parts[1..]
  }

  lemma GrowFirstConcat(c: char, a: seq<string>, b: seq<string>)
    requires |a| >= 1
    ensures GrowFirst(c, a + b) == GrowFirst(c, a) + b
  {
    assert (a + b)[0] == a[0] && (a + b)[1..] == a[1..] + b;
  }

  /** `strings.Split(s, string(c))`. */
  function Split(s: string, c: char): seq<string> { SplitOn(s, Only(c)) }

  /** `strings.Join(parts, glue)`. */
  function Join(parts: seq<string>, glue: string): string {
    if |parts| == 0 then ""
    else if |parts| == 1 then parts[0]
    else parts[0] + glue + Join(parts[1..], glue)
  }

  function NonEmpty(parts: seq<string>): seq<string> {
    if parts == [] then []
    else (if parts[0] == "" then [] else [parts[0]]) + NonEmpty(parts[1..])
  }

  /** `strings.Fields(s)`. */
  function Fields(s: string): seq<string> { NonEmpty(SplitOn(s, White)) }

  function FirstOf(line: string): seq<string> {
    var fields := Fields(line);
    if |fields| > 0 then [fields[0]] else []
  }

  /** The first field of every line that has one. */
  function FirstFields(lines: seq<string>): seq<string> {
    if lines == [] then [] else FirstOf(lines[0]) + FirstFields(lines[1..])
  }

  /** Said of the lines: some line's first field is `w`. */
  lemma {:induction false} FirstFieldsAre(lines: seq<string>, w: string)
    ensures w in FirstFields(lines) <==> exists line :: line in lines && Fields(line) != [] && Fields(line)[0] == w
  {
    if lines != [] {
      FirstFieldsAre(lines[1..], w);
      assert forall line :: line in lines <==> line == lines[0] || line in lines[1..];
    }
  }

  /** There is none exactly when every line is blank. */
  lemma {:induction false} NoFirstFields(lines: seq<string>)
    ensures FirstFields(lines) == [] <==> forall line :: line in lines ==> Fields(line) == []
  {
    if lines != [] {
      NoFirstFields(lines[1..]);
      assert forall line :: line in lines <==> line == lines[0] || line in lines[1..];
    }
  }

  lemma FirstFieldsStep(found: seq<string>, lines: seq<string>, i: nat)
    requires i < |lines|
    ensures found + FirstFields(lines[i..]) == (found + FirstOf(lines[i])) + FirstFields(lines[i + 1..])
  {
    assert lines[i..][0] == lines[i] && lines[i..][1..] == lines[i + 1..];
    Sequences.Associate(found, FirstOf(lines[i]), FirstFields(lines[i + 1..]));
  }

  lemma {:induction false} FirstFieldsConcat(a: seq<string>, b: seq<string>)
    ensures FirstFields(a + b) == FirstFields(a) + FirstFields(b)
  {
    if a == [] {
      assert a + b == b;
    } else {
      assert (a + b)[1..] == a[1..] + b;
      FirstFieldsConcat(a[1..], b);
    }
  }

  function TrimLeft(s: string): string {
    if s != [] && IsSpace(s[0]) then TrimLeft(s[1..]) else s
  }

  function TrimRight(s: string): string {
    if s != [] && IsSpace(s[|s| - 1]) then TrimRight(s[..|s| - 1]) else s
  }

  /** `strings.TrimSpace(s)`. */
  function TrimSpace(s: string): string { TrimRight(TrimLeft(s)) }

  predicate HasPrefix(s: string, p: string) { p <= s }

  predicate HasSuffix(s: string, p: string) { |p| <= |s| && s[|s| - |p|..] == p }

  predicate Free(s: string, sep: Separator) { forall i :: 0 <= i < |s| ==> !sep.Matches(s[i]) }

  /** A non-empty string that `Fields` keeps in one piece. */
  predicate Word(s: string) { s != "" && Free(s, White) }

  lemma FreeConcat(a: string, b: string, sep: Separator)
    requires Free(a, sep) && Free(b, sep)
    ensures Free(a + b, sep)
  {}

  lemma {:induction false} SplitOnConcat(a: string, x: char, b: string, sep: Separator)
    requires sep.Matches(x)
    ensures SplitOn(a + [x] + b, sep) == SplitOn(a, sep) + SplitOn(b, sep)
  {
    var whole := a + [x] + b;
    if a == [] {
      assert whole[1..] == b;
    } else {
      assert whole[0] == a[0] && whole[1..] == a[1..] + [x] + b;
      SplitOnConcat(a[1..], x, b, sep);
      GrowFirstConcat(a[0], SplitOn(a[1..], sep), SplitOn(b, sep));
    }
  }

  lemma {:induction false} SplitOnFree(s: string, sep: Separator)
    requires Free(s, sep)
    ensures SplitOn(s, sep) == [s]
  {
    if s != [] {
      SplitOnFree(s[1..], sep);
      assert [s[0]] + s[1..] == s;
    }
  }

  lemma {:induction false} PiecesFree(s: string, sep: Separator)
    ensures forall i :: 0 <= i < |SplitOn(s, sep)| ==> Free(SplitOn(s, sep)[i], sep)
  {
    if s != [] {
      PiecesFree(s[1..], sep);
    }
  }

  lemma {:induction false} PieceChars(s: string, sep: Separator, p: Separator)
    requires Free(s, p)
    ensures forall e :: e in SplitOn(s, sep) ==> Free(e, p)
  {
    if s != [] {
      PieceChars(s[1..], sep, p);
      var rest := SplitOn(s[1..], sep);
      assert Free(rest[0], p);
      forall e | e in SplitOn(s, sep) ensures Free(e, p) {
        if e !in rest && e != "" { assert e == [s[0]] + rest[0]; }
      }
    }
  }

  lemma {:induction false} JoinSplit(s: string, c: char)
    ensures Join(Split(s, c), [c]) == s
  {
    if s != [] {
      JoinSplit(s[1..], c);
      var rest := Split(s[1..], c);
      if s[0] == c {
        assert ([[]] + rest)[1..] == rest;
      } else {
        assert ([[s[0]] + rest[0]] + rest[1..])[1..] == rest[1..];
      }
    }
  }

  lemma {:induction false} SplitJoin(parts: seq<string>, c: char)
    requires |parts| >= 1
    requires forall i :: 0 <= i < |parts| ==> Free(parts[i], Only(c))
    ensures Split(Join(parts, [c]), c) == parts
  {
    SplitOnFree(parts[0], Only(c));
    if |parts| > 1 {
      var rest := parts[1..];
      forall i | 0 <= i < |rest| ensures Free(rest[i], Only(c)) { assert rest[i] == parts[i + 1]; }
      SplitJoin(rest, c);
      SplitOnConcat(parts[0], c, Join(rest, [c]), Only(c));
      assert parts == [parts[0]] + rest;
    }
  }

  /** Longer parts make a longer whole. */
  lemma {:induction false} JoinLonger(a: seq<string>, b: seq<string>, glue: string)
    requires |a| == |b| && forall i :: 0 <= i < |a| ==> |a[i]| <= |b[i]|
    ensures |Join(a, glue)| <= |Join(b, glue)|
    ensures (exists i :: 0 <= i < |a| && |a[i]| < |b[i]|) ==> |Join(a, glue)| < |Join(b, glue)|
  {
    if |a| > 1 {
      JoinLonger(a[1..], b[1..], glue);
      if i :| 0 <= i < |a| && |a[i]| < |b[i]| {
        if i > 0 { assert |a[1..][i - 1]| < |b[1..][i - 1]|; }
      }
    }
  }

  lemma {:induction false} NonEmptyConcat(a: seq<string>, b: seq<string>)
    ensures NonEmpty(a + b) == NonEmpty(a) + NonEmpty(b)
  {
    if a == [] {
      assert a + b == b;
    } else {
      assert (a + b)[1..] == a[1..] + b;
      NonEmptyConcat(a[1..], b);
    }
  }

  lemma FieldsConcat(a: string, x: char, b: string)
    requires IsSpace(x)
    ensures Fields(a + [x] + b) == Fields(a) + Fields(b)
  {
    SplitOnConcat(a, x, b, White);
    NonEmptyConcat(SplitOn(a, White), SplitOn(b, White));
  }

  lemma FieldsWord(w: string)
    requires Word(w)
    ensures Fields(w) == [w]
  {
    SplitOnFree(w, White);
    NonEmptyAll([w]);
  }

  lemma {:induction false} NonEmptyMembers(parts: seq<string>)
    ensures forall w :: w in NonEmpty(parts) ==> w in parts && w != ""
  {
    if parts != [] { NonEmptyMembers(parts[1..]); }
  }

  lemma {:induction false} NonEmptyAll(parts: seq<string>)
    requires forall i :: 0 <= i < |parts| ==> parts[i] != ""
    ensures NonEmpty(parts) == parts
  {
    if parts != [] { NonEmptyAll(parts[1..]); }
  }

  lemma FieldsAreWords(s: string)
    ensures forall w :: w in Fields(s) ==> Word(w)
  {
    PiecesFree(s, White);
    NonEmptyMembers(SplitOn(s, White));
  }

  lemma {:induction false} FieldsJoin(ws: seq<string>)
    requires forall w :: w in ws ==> Word(w)
    ensures Fields(Join(ws, " ")) == ws
  {
    if ws != [] {
      FieldsWord(ws[0]);
      if |ws| > 1 {
        FieldsJoin(ws[1..]);
        FieldsConcat(ws[0], ' ', Join(ws[1..], " "));
      }
    }
  }

  lemma {:induction false} FieldsTrimLeft(s: string)
    ensures Fields(TrimLeft(s)) == Fields(s)
  {
    if s != [] && IsSpace(s[0]) {
      FieldsTrimLeft(s[1..]);
      assert s == [] + [s[0]] + s[1..];
      FieldsConcat([], s[0], s[1..]);
    }
  }

  lemma {:induction false} FieldsTrimRight(s: string)
    ensures Fields(TrimRight(s)) == Fields(s)
  {
    if s != [] && IsSpace(s[|s| - 1]) {
      FieldsTrimRight(s[..|s| - 1]);
      assert s == s[..|s| - 1] + [s[|s| - 1]] + [];
      FieldsConcat(s[..|s| - 1], s[|s| - 1], []);
    }
  }

  lemma FieldsTrim(s: string)
    ensures Fields(TrimSpace(s)) == Fields(s)
  {
    FieldsTrimLeft(s);
    FieldsTrimRight(TrimLeft(s));
  }

  lemma {:induction false} TrimLeftHead(s: string)
    ensures TrimLeft(s) != [] ==> !IsSpace(TrimLeft(s)[0])
  {
    if s != [] && IsSpace(s[0]) { TrimLeftHead(s[1..]); }
  }

  lemma {:induction false} TrimRightKeepsHead(s: string)
    requires s != [] && !IsSpace(s[0])
    ensures TrimRight(s) != [] && TrimRight(s)[0] == s[0]
    ensures !IsSpace(TrimRight(s)[|TrimRight(s)| - 1])
  {
    if IsSpace(s[|s| - 1]) { TrimRightKeepsHead(s[..|s| - 1]); }
  }

  /** A trimmed line is empty iff it has no field, and otherwise starts with its first field. */
  lemma TrimHead(s: string)
    ensures TrimSpace(s) == "" <==> Fields(s) == []
    ensures TrimSpace(s) != "" ==> Fields(s)[0] != "" && TrimSpace(s)[0] == Fields(s)[0][0]
  {
    FieldsTrim(s);
    TrimLeftHead(s);
    if TrimLeft(s) != [] {
      TrimRightKeepsHead(TrimLeft(s));
      FirstFieldHead(TrimSpace(s));
    }
  }

  lemma FirstFieldHead(s: string)
    requires s != [] && !IsSpace(s[0])
    ensures Fields(s) != [] && Fields(s)[0] != "" && Fields(s)[0][0] == s[0]
  {
    var rest := SplitOn(s[1..], White);
    assert SplitOn(s, White)[0] == [s[0]] + rest[0];
  }

  /** Trimming is the identity on a string whose first and last characters are not white space. */
  lemma TrimTight(s: string)
    requires s != [] ==> !IsSpace(s[0]) && !IsSpace(s[|s| - 1])
    ensures TrimSpace(s) == s
  {}

  lemma {:induction false} TrimSpaceTight(s: string)
    ensures TrimSpace(s) != [] ==> !IsSpace(TrimSpace(s)[0]) && !IsSpace(TrimSpace(s)[|TrimSpace(s)| - 1])
  {
    TrimLeftHead(s);
    if TrimLeft(s) != [] { TrimRightKeepsHead(TrimLeft(s)); }
  }

  /** A trailing newline, as the kernel appends on read-back, is trimmed away. */
  lemma {:induction false} TrimNewline(s: string)
    ensures TrimSpace(s + "\n") == TrimSpace(s)
  {
    if s == [] {
      assert TrimLeft("\n") == TrimLeft("");
    } else if IsSpace(s[0]) {
      assert (s + "\n")[1..] == s[1..] + "\n";
      TrimNewline(s[1..]);
    } else {
      assert (s + "\n")[..|s|] == s;
    }
  }
}
