/**
  How main turns the "questions" text into questions: split on '\n', then keep the
  lines whose strip() is non-empty.
 */
module Questions {

  /** str.isspace() for one character: the ASCII controls \t \n \v \f \r, the separators
      \x1c-\x1f, space, and the Unicode spaces U+0085, U+00A0, U+1680, U+2000-U+200A,
      U+2028, U+2029, U+202F, U+205F and U+3000. */
  predicate IsSpace(c: char)
  {
    var n := c as int;
    (9 <= n <= 13) || (28 <= n <= 32) || n == 0x85 || n == 0xA0 || n == 0x1680 ||
    (0x2000 <= n <= 0x200A) || n == 0x2028 || n == 0x2029 || n == 0x202F ||
    n == 0x205F || n == 0x3000
  }

  predicate AllSpace(s: string)
  {
    forall i :: 0 <= i < |s| ==> IsSpace(s[i])
  }

  function TrimStart(s: string): string
    decreases |s|
  {
    if s != [] && IsSpace(s[0]) then TrimStart(s[1..]) else s
  }

  function TrimEnd(s: string): string
    decreases |s|
  {
    if s != [] && IsSpace(s[|s| - 1]) then TrimEnd(s[..|s| - 1]) else s
  }

  /** str.strip() with no argument. */
  function Strip(s: string): string
  {
    TrimEnd(TrimStart(s))
  }

  /** r is s with whitespace cut off both ends only, and r neither starts nor ends with
      whitespace. */
  ghost predicate StrippedOf(r: string, s: string)
  {
    && (exists i, j :: 0 <= i <= j <= |s| && r == s[i..j] && AllSpace(s[..i]) && AllSpace(s[j..]))
    && (r != "" ==> !IsSpace(r[0]) && !IsSpace(r[|r| - 1]))
  }

  /** Leading whitespace, and only that, is cut off. */
  lemma {:induction false} TrimStartShape(s: string)
    ensures |TrimStart(s)| <= |s| && TrimStart(s) == s[|s| - |TrimStart(s)|..]
    ensures AllSpace(s[..|s| - |TrimStart(s)|])
    ensures TrimStart(s) != "" ==> !IsSpace(TrimStart(s)[0])
    decreases |s|
  {
    if s != [] && IsSpace(s[0]) {
      TrimStartShape(s[1..]);
      var r := TrimStart(s[1..]);
      assert s[..|s| - |r|] == [s[0]] + s[1..][..|s| - 1 - |r|];
    }
  }

  /** Trailing whitespace, and only that, is cut off. */
  lemma {:induction false} TrimEndShape(s: string)
    ensures |TrimEnd(s)| <= |s| && TrimEnd(s) == s[..|TrimEnd(s)|]
    ensures AllSpace(s[|TrimEnd(s)|..])
    ensures TrimEnd(s) != "" ==> !IsSpace(TrimEnd(s)[|TrimEnd(s)| - 1])
    decreases |s|
  {
    if s != [] && IsSpace(s[|s| - 1]) {
      TrimEndShape(s[..|s| - 1]);
      var r := TrimEnd(s[..|s| - 1]);
      assert s[|r|..] == s[..|s| - 1][|r|..] + [s[|s| - 1]];
    }
  }

  /** strip() cuts whitespace, and only whitespace, off both ends, until neither end is
      whitespace. */
  lemma StripShape(s: string)
    ensures StrippedOf(Strip(s), s)
  {
    TrimStartShape(s);
    var t := TrimStart(s);
    TrimEndShape(t);
    var r := TrimEnd(t);
    var i := |s| - |t|;
    assert r == s[i..i + |r|];
    assert s[i + |r|..] == t[|r|..];
  }

  lemma {:induction false} TrimStartEmpty(s: string)
    ensures TrimStart(s) == "" <==> AllSpace(s)
    ensures AllSpace(TrimStart(s)) <==> AllSpace(s)
    decreases |s|
  {
    if s != [] && IsSpace(s[0]) {
      TrimStartEmpty(s[1..]);
      assert AllSpace(s) <==> AllSpace(s[1..]);
    }
  }

  lemma {:induction false} TrimEndEmpty(s: string)
    ensures TrimEnd(s) == "" <==> AllSpace(s)
    decreases |s|
  {
    if s != [] && IsSpace(s[|s| - 1]) {
      TrimEndEmpty(s[..|s| - 1]);
      assert AllSpace(s) <==> AllSpace(s[..|s| - 1]);
    }
  }

  /** `if question.strip():` skips exactly the lines made only of whitespace. */
  lemma StripEmptyIffBlank(s: string)
    ensures Strip(s) == "" <==> AllSpace(s)
  {
    TrimStartEmpty(s);
    TrimEndEmpty(TrimStart(s));
  }

  /** str.split('\n'): the pieces between newlines, always at least one. */
  function SplitLines(s: string): (lines: seq<string>)
    ensures |lines| >= 1
    decreases |s|
  {
    if s == [] then [""]
    else
      var rest := SplitLines(s[1..]);
      if s[0] == '\n' then [""] + rest
      else [[s[0]] + rest[0]] + rest[1..]
  }

  /** '\n'.join(lines) */
  function JoinLines(lines: seq<string>): string
    requires |lines| >= 1
  {
    if |lines| == 1 then lines[0] else lines[0] + "\n" + JoinLines(lines[1..])
  }

  predicate NoNewline(s: string)
  {
    forall i :: 0 <= i < |s| ==> s[i] != '\n'
  }

  lemma {:induction false} SplitLinesNoNewline(s: string)
    ensures forall l :: l in SplitLines(s) ==> NoNewline(l)
    decreases |s|
  {
    if s != [] {
      var rest := SplitLines(s[1..]);
      SplitLinesNoNewline(s[1..]);
      if s[0] != '\n' {
        var lines := SplitLines(s);
        assert lines == [[s[0]] + rest[0]] + rest[1..];
        assert rest[0] in rest;
        forall l | l in lines
          ensures NoNewline(l)
        {
          if l != lines[0] {
            assert l in rest[1..];
            assert l in rest;
          }
        }
      }
    }
  }

  lemma JoinConsNewline(lines: seq<string>)
    requires |lines| >= 1
    ensures JoinLines([""] + lines) == "\n" + JoinLines(lines)
  {
    assert ([""] + lines)[1..] == lines;
  }

  lemma JoinConsChar(c: char, lines: seq<string>)
    requires |lines| >= 1
    ensures JoinLines([[c] + lines[0]] + lines[1..]) == [c] + JoinLines(lines)
  {
    var joined := [[c] + lines[0]] + lines[1..];
    if |lines| == 1 {
      assert joined == [[c] + lines[0]];
    } else {
      var tail := JoinLines(lines[1..]);
      assert joined[1..] == lines[1..];
      ConsAssoc(c, lines[0], "\n");
      ConsAssoc(c, lines[0] + "\n", tail);
    }
  }

  lemma ConsAssoc(c: char, a: string, b: string)
    ensures ([c] + a) + b == [c] + (a + b)
  {
  }

  lemma {:induction false} JoinSplitLines(s: string)
    ensures JoinLines(SplitLines(s)) == s
    decreases |s|
  {
    if s != [] {
      var rest := SplitLines(s[1..]);
      JoinSplitLines(s[1..]);
      assert s == [s[0]] + s[1..];
      if s[0] == '\n' {
        JoinConsNewline(rest);
      } else {
        JoinConsChar(s[0], rest);
      }
    }
  }

  /** Splitting loses nothing: no piece holds a newline, and joining the pieces with
      newlines gives back the text. */
  lemma SplitThenJoin(s: string)
    ensures forall l :: l in SplitLines(s) ==> NoNewline(l)
    ensures JoinLines(SplitLines(s)) == s
  {
    SplitLinesNoNewline(s);
    JoinSplitLines(s);
  }

  lemma {:induction false} SplitPrefix(a: string, t: string)
    requires NoNewline(a)
    ensures SplitLines(a + t) == [a + SplitLines(t)[0]] + SplitLines(t)[1..]
    decreases |a|
  {
    var st := SplitLines(t);
    if a == [] {
      assert a + t == t;
      assert st == [st[0]] + st[1..];
      assert a + st[0] == st[0];
    } else {
      SplitPrefix(a[1..], t);
      var rest := SplitLines(a[1..] + t);
      assert (a + t)[1..] == a[1..] + t;
      assert (a + t)[0] == a[0] && a[0] != '\n';
      assert SplitLines(a + t) == [[a[0]] + rest[0]] + rest[1..];
      assert rest[0] == a[1..] + st[0] && rest[1..] == st[1..];
      assert [a[0]] + (a[1..] + st[0]) == a + st[0];
    }
  }

  /** And the other way: newline-free lines joined with newlines split back into the same lines. */
  lemma {:induction false} JoinThenSplit(lines: seq<string>)
    requires |lines| >= 1
    requires forall l :: l in lines ==> NoNewline(l)
    ensures SplitLines(JoinLines(lines)) == lines
    decreases |lines|
  {
    if |lines| == 1 {
      SplitPrefix(lines[0], "");
      assert lines[0] + "" == lines[0];
    } else {
      var t := JoinLines(lines[1..]);
      assert lines[1..][0] in lines;
      JoinThenSplit(lines[1..]);
      assert lines[0] + "\n" + t == lines[0] + ("\n" + t);
      SplitPrefix(lines[0], "\n" + t);
      assert ("\n" + t)[1..] == t;
      assert SplitLines("\n" + t) == [""] + lines[1..];
      assert lines[0] + "" == lines[0];
      assert lines == [lines[0]] + lines[1..];
    }
  }

  /** The lines main answers, in order: those whose strip() is non-empty, and all of them. */
  function NonBlank(lines: seq<string>): (qs: seq<string>)
    ensures |qs| <= |lines|
    ensures forall q :: q in qs ==> q in lines && !AllSpace(q)
    ensures forall l :: l in lines && !AllSpace(l) ==> l in qs
  {
    if lines == [] then []
    else
      StripEmptyIffBlank(lines[0]);
      assert forall l :: l in lines ==> l == lines[0] || l in lines[1..];
      (if Strip(lines[0]) != "" then [lines[0]] else []) + NonBlank(lines[1..])
  }

  /** The order is that of the lines: one more line adds its question, if any, last. */
  lemma {:induction false} NonBlankAppend(lines: seq<string>, line: string)
    ensures NonBlank(lines + [line]) == NonBlank(lines) + (if Strip(line) != "" then [line] else [])
  {
    var last: seq<string> := if Strip(line) != "" then [line] else [];
    if lines == [] {
      assert [] + [line] == [line];
      assert NonBlank([line]) == last + NonBlank([]);
    } else {
      var head: seq<string> := if Strip(lines[0]) != "" then [lines[0]] else [];
      assert (lines + [line])[1..] == lines[1..] + [line];
      assert (lines + [line])[0] == lines[0];
      NonBlankAppend(lines[1..], line);
      assert NonBlank(lines + [line]) == head + (NonBlank(lines[1..]) + last);
      assert NonBlank(lines) == head + NonBlank(lines[1..]);
    }
  }

  lemma NonBlankStep(lines: seq<string>, j: nat)
    requires j < |lines|
    ensures NonBlank(lines[..j + 1]) == NonBlank(lines[..j]) + (if Strip(lines[j]) != "" then [lines[j]] else [])
  {
    assert lines[..j + 1] == lines[..j] + [lines[j]];
    NonBlankAppend(lines[..j], lines[j]);
  }
}
