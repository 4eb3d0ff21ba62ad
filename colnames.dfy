/** `format_colname` (Logisticsdata.py:426-437): a header longer than eight
    characters gets an HTML line break before every `-`, or else before
    every full-width `（`, or else after its eighth character. */
module Colnames {
  const Break: string := "<br>"
  const FullWidthParen: char := '\U{FF08}'

  function CountChar(s: string, c: char): nat
    decreases |s|
  {
    if s == [] then 0 else (if s[0] == c then 1 else 0) + CountChar(s[1..], c)
  }

  /** `col.replace(c, "<br>" + c)`. */
  function BreakBefore(s: string, c: char): (r: string)
    decreases |s|
  {
    if s == [] then []
    else (if s[0] == c then Break + [c] else [s[0]]) + BreakBefore(s[1..], c)
  }

  /** Reading the header back: every `<br>` taken out. */
  function RemoveBreaks(r: string): string
    decreases |r|
  {
    if r == [] then []
    else if |r| >= 4 && r[..4] == Break then RemoveBreaks(r[4..])
    else [r[0]] + RemoveBreaks(r[1..])
  }

  function FormatColname(col: string): (r: string)
    ensures |col| <= 8 ==> r == col
    ensures |col| > 8 ==> |r| > |col|
  {
    if |col| > 8 then
      if '-' in col then
        BreakCountFacts(col, '-');
        BreakBefore(col, '-')
      else if FullWidthParen in col then
        BreakCountFacts(col, FullWidthParen);
        BreakBefore(col, FullWidthParen)
      else col[..8] + Break + col[8..]
    else col
  }

  // ---------------------------------------------------------------------
  // Properties

  /** A character that occurs is counted. */
  lemma {:induction false} BreakCountFacts(s: string, c: char)
    requires c in s
    ensures CountChar(s, c) > 0
    ensures |BreakBefore(s, c)| == |s| + 4 * CountChar(s, c)
    decreases |s|
  {
    BreakLength(s, c);
    if s[0] != c {
      assert c in s[1..];
      BreakCountFacts(s[1..], c);
    }
  }

  /** Each occurrence of the character gains the four characters of
      `<br>`. */
  lemma {:induction false} BreakLength(s: string, c: char)
    ensures |BreakBefore(s, c)| == |s| + 4 * CountChar(s, c)
    decreases |s|
  {
    if s != [] {
      BreakLength(s[1..], c);
    }
  }

  /** Breaking before a character other than `<` then taking the breaks out
      gives the header back, when the header holds no `<` of its own. */
  lemma {:induction false} BreakRoundTrip(s: string, c: char)
    requires c != '<' && '<' !in s
    ensures RemoveBreaks(BreakBefore(s, c)) == s
    decreases |s|
  {
    if s != [] {
      var rest := BreakBefore(s[1..], c);
      TailLacks(s, '<');
      BreakRoundTrip(s[1..], c);
      if s[0] == c {
        var w := Break + [c] + rest;
        assert w[..4] == Break && w[4..] == [c] + rest;
        OneHead(c, rest);
      } else {
        OneHead(s[0], rest);
      }
    }
  }

  lemma TailLacks(s: string, c: char)
    requires s != [] && c !in s
    ensures c !in s[1..]
  {
    forall i | 0 <= i < |s[1..]| ensures s[1..][i] != c {
      assert s[1..][i] == s[i + 1];
    }
  }

  /** A first character other than `<` is kept. */
  lemma OneHead(x: char, rest: string)
    requires x != '<'
    ensures RemoveBreaks([x] + rest) == [x] + RemoveBreaks(rest)
  {
    var w := [x] + rest;
    assert w[0] == x && w[1..] == rest;
  }

  /** Text without `<` has no breaks to take out. */
  lemma {:induction false} NoBreaks(s: string)
    requires '<' !in s
    ensures RemoveBreaks(s) == s
    decreases |s|
  {
    if s != [] {
      assert s == [s[0]] + s[1..];
      TailLacks(s, '<');
      NoBreaks(s[1..]);
      OneHead(s[0], s[1..]);
    }
  }

  /** Breaks are taken out of a concatenation part by part when the first
      part holds no `<`. */
  lemma {:induction false} RemoveBreaksAppend(a: string, b: string)
    requires '<' !in a
    ensures RemoveBreaks(a + b) == a + RemoveBreaks(b)
    decreases |a|
  {
    if a != [] {
      assert a + b == [a[0]] + (a[1..] + b);
      TailLacks(a, '<');
      RemoveBreaksAppend(a[1..], b);
      OneHead(a[0], a[1..] + b);
      assert [a[0]] + (a[1..] + RemoveBreaks(b)) == a + RemoveBreaks(b);
    } else {
      assert a + b == b;
    }
  }

  /** The formatted header differs from the header only by inserted
      `<br>`s: taking them out gives the header back. */
  lemma FormatColnameRoundTrip(col: string)
    requires '<' !in col
    ensures RemoveBreaks(FormatColname(col)) == col
  {
    if |col| > 8 {
      if '-' in col {
        BreakRoundTrip(col, '-');
      } else if FullWidthParen in col {
        BreakRoundTrip(col, FullWidthParen);
      } else {
        var a, b := col[..8], col[8..];
        assert '<' !in a && '<' !in b;
        assert FormatColname(col) == a + (Break + b);
        RemoveBreaksAppend(a, Break + b);
        assert (Break + b)[..4] == Break && (Break + b)[4..] == b;
        NoBreaks(b);
        assert a + b == col;
      }
    } else {
      NoBreaks(col);
    }
  }

  /** A long header with a `-` gains one break per `-`, and a long header
      with no `-` but a `（` gains one per `（`. */
  lemma FormatColnameBreaks(col: string)
    requires |col| > 8
    ensures '-' in col ==> |FormatColname(col)| == |col| + 4 * CountChar(col, '-')
    ensures '-' !in col && FullWidthParen in col
      ==> |FormatColname(col)| == |col| + 4 * CountChar(col, FullWidthParen)
  {
    BreakLength(col, '-');
    BreakLength(col, FullWidthParen);
  }

  /** A long header with neither character is broken after its eighth
      character. */
  lemma FormatColnameSplit(col: string)
    requires |col| > 8 && '-' !in col && FullWidthParen !in col
    ensures var r := FormatColname(col);
      |r| == |col| + 4 && r[..8] == col[..8] && r[8..12] == Break && r[12..] == col[8..]
  {
  }
}
