/** The message markup of a post view (`PostItem.display`): a message is
    turned into HTML text by a newline pass, four delimiter passes, a link
    rewriting loop and shortcode replacement, each on the output of the one
    before. */
module Markup {
  import opened Wrappers
  import opened JsString
  import opened Types

  const LineBreak: string := "<br/>"

  /** Number of occurrences of the character `c` in `s`. */
  function CountChar(s: string, c: char): nat
  {
    if s == [] then 0 else (if s[0] == c then 1 else 0) + CountChar(s[1..], c)
  }

  lemma {:induction false} CountCharAppend(a: string, b: string, c: char)
    ensures CountChar(a + b, c) == CountChar(a, c) + CountChar(b, c)
  {
    if a == [] {
      assert a + b == b;
    } else {
      assert (a + b)[1..] == a[1..] + b;
      CountCharAppend(a[1..], b, c);
    }
  }

  lemma {:induction false} CountCharAbsent(s: string, c: char)
    requires c !in s
    ensures CountChar(s, c) == 0
  {
    if s != [] {
      assert c !in s[1..];
      CountCharAbsent(s[1..], c);
    }
  }

  // ---------------------------------------------------------------------
  // Newlines

  lemma LineBreakChars()
    ensures '\n' !in LineBreak
    ensures CountChar(LineBreak, '<') == 1
    ensures CountChar(LineBreak, '\n') == 0
  {
    assert LineBreak[1..] == "br/>";
    CountCharAbsent("br/>", '<');
    CountCharAbsent(LineBreak, '\n');
  }

  /** Reference reading of the newline pass: every line feed becomes a break. */
  function Breaks(text: string): string
  {
    if text == [] then [] else (if text[0] == '\n' then LineBreak else [text[0]]) + Breaks(text[1..])
  }

  lemma {:induction false} BreaksAppend(a: string, b: string)
    ensures Breaks(a + b) == Breaks(a) + Breaks(b)
  {
    if a == [] {
      assert a + b == b;
    } else {
      assert (a + b)[0] == a[0];
      assert (a + b)[1..] == a[1..] + b;
      BreaksAppend(a[1..], b);
    }
  }

  lemma {:induction false} BreaksPlain(a: string)
    requires '\n' !in a
    ensures Breaks(a) == a
  {
    if a != [] {
      assert '\n' !in a[1..];
      BreaksPlain(a[1..]);
    }
  }

  /** Each line, followed by a break: what the `forEach` over the lines builds. */
  function Terminated(lines: seq<string>): string
  {
    if lines == [] then "" else lines[0] + LineBreak + Terminated(lines[1..])
  }

  lemma {:induction false} TerminatedAppend(lines: seq<string>, line: string)
    ensures Terminated(lines + [line]) == Terminated(lines) + line + LineBreak
  {
    if lines == [] {
      assert lines + [line] == [line];
    } else {
      assert (lines + [line])[1..] == lines[1..] + [line];
      TerminatedAppend(lines[1..], line);
    }
  }

  lemma TerminatedCons(line: string, tail: seq<string>)
    ensures Terminated([line] + tail) == line + LineBreak + Terminated(tail)
  {
    assert ([line] + tail)[1..] == tail;
  }

  lemma Decompose(text: string, i: int)
    requires 0 <= i < |text|
    ensures text == text[..i] + [text[i]] + text[i + 1..]
  {
  }

  lemma BreaksAround(line: string, rest: string)
    requires '\n' !in line
    ensures Breaks(line + "\n" + rest) == line + LineBreak + Breaks(rest)
  {
    BreaksAppend(line + "\n", rest);
    BreaksAppend(line, "\n");
    BreaksPlain(line);
  }

  /** Splitting on line feeds and terminating every line with a break is the
      same as turning every line feed into a break and adding one more. */
  lemma {:induction false} TerminatedSplit(text: string)
    decreases |text|
    ensures Terminated(Split(text, "\n")) == Breaks(text) + LineBreak
  {
    IndexOfChar(text, '\n');
    var i := IndexOf(text, "\n");
    if i < 0 {
      BreaksPlain(text);
    } else {
      var line, rest := text[..i], text[i + 1..];
      TerminatedSplit(rest);
      Decompose(text, i);
      assert text == line + "\n" + rest;
      TerminatedSplitStep(line, rest);
    }
  }

  /** One line of the split: the first line and its break, then the rest. */
  lemma TerminatedSplitStep(line: string, rest: string)
    requires '\n' !in line
    requires Terminated(Split(rest, "\n")) == Breaks(rest) + LineBreak
    ensures Terminated(Split(line + "\n" + rest, "\n")) == Breaks(line + "\n" + rest) + LineBreak
  {
    SplitFirstLine(line, rest);
    TerminatedCons(line, Split(rest, "\n"));
    AppendAssoc(line + LineBreak, Breaks(rest), LineBreak);
    BreaksAround(line, rest);
  }

  lemma SplitFirstLine(line: string, rest: string)
    requires '\n' !in line
    ensures Split(line + "\n" + rest, "\n") == [line] + Split(rest, "\n")
  {
    IndexOfAfter(line, "\n", rest);
    SliceMiddle(line, "\n", rest);
    SplitAt(line + "\n" + rest, "\n");
  }

  /** The newline pass: every line of the text, each followed by `<br/>`. */
  method NewlinePass(text: string) returns (html: string)
    ensures html == Breaks(text) + LineBreak
  {
    var lines := Split(text, "\n");
    html := "";
    var i := 0;
    while i < |lines|
      invariant 0 <= i <= |lines|
      invariant html == Terminated(lines[..i])
    {
      html := html + lines[i];
      html := html + LineBreak;
      TerminatedAppend(lines[..i], lines[i]);
      assert lines[..i + 1] == lines[..i] + [lines[i]];
      i := i + 1;
    }
    assert lines[..|lines|] == lines;
    TerminatedSplit(text);
  }

  /** The newline pass removes every line feed and adds exactly one break per
      line feed, plus the trailing one. */
  lemma {:induction false} BreaksCount(text: string)
    ensures '\n' !in Breaks(text) + LineBreak
    ensures |Breaks(text) + LineBreak| == |text| + 4 * CountChar(text, '\n') + 5
    ensures CountChar(Breaks(text) + LineBreak, '<') == CountChar(text, '<') + CountChar(text, '\n') + 1
  {
    LineBreakChars();
    if text == [] {
      assert Breaks(text) + LineBreak == LineBreak;
    } else {
      var head := if text[0] == '\n' then LineBreak else [text[0]];
      BreaksCount(text[1..]);
      assert Breaks(text) + LineBreak == head + (Breaks(text[1..]) + LineBreak);
      CountCharAppend(head, Breaks(text[1..]) + LineBreak, '<');
      assert text == [text[0]] + text[1..];
      CountCharAppend([text[0]], text[1..], '<');
      CountCharAppend([text[0]], text[1..], '\n');
    }
  }

  // ---------------------------------------------------------------------
  // Delimiter passes

  /** What a delimiter pass emits, one `concat` at a time. */
  datatype Frag = Text(text: string) | Open | Close

  /** One piece of the split, wrapped in tags when the flag says it is inside. */
  function Piece(p: string, inside: bool): seq<Frag>
  {
    if inside then [Open, Text(p), Close] else [Text(p)]
  }

  /** The pieces with every odd-indexed one wrapped: the flag starts false
      and flips after each piece. */
  function Wrap(pieces: seq<string>): seq<Frag>
  {
    if pieces == [] then []
    else Wrap(pieces[..|pieces| - 1]) + Piece(pieces[|pieces| - 1], (|pieces| - 1) % 2 == 1)
  }

  function Render(fs: seq<Frag>, open: string, close: string): string
  {
    if fs == [] then ""
    else (match fs[0] case Text(t) => t case Open => open case Close => close) + Render(fs[1..], open, close)
  }

  lemma {:induction false} RenderAppend(a: seq<Frag>, b: seq<Frag>, open: string, close: string)
    ensures Render(a + b, open, close) == Render(a, open, close) + Render(b, open, close)
  {
    if a == [] {
      assert a + b == b;
    } else {
      assert (a + b)[0] == a[0];
      assert (a + b)[1..] == a[1..] + b;
      RenderAppend(a[1..], b, open, close);
    }
  }

  lemma RenderPiece(p: string, inside: bool, open: string, close: string)
    ensures Render(Piece(p, inside), open, close) == if inside then open + p + close else p
  {
    var fs := Piece(p, inside);
    if inside {
      assert fs[1..][1..][1..] == [];
      assert Render(fs[1..][1..], open, close) == close;
      assert Render(fs[1..], open, close) == p + close;
    } else {
      assert fs[1..] == [];
    }
  }

  /** The text a delimiter pass produces from `s`. */
  function StylePass(s: string, delim: string, open: string, close: string): string
    requires |delim| > 0
  {
    Render(Wrap(Split(s, delim)), open, close)
  }

  /** The rendered pieces grow by one piece, wrapped when its index is odd. */
  lemma WrapStep(pieces: seq<string>, i: int, open: string, close: string)
    requires 0 <= i < |pieces|
    ensures i % 2 == 1 ==>
      Render(Wrap(pieces[..i + 1]), open, close) == Render(Wrap(pieces[..i]), open, close) + open + pieces[i] + close
    ensures i % 2 == 0 ==>
      Render(Wrap(pieces[..i + 1]), open, close) == Render(Wrap(pieces[..i]), open, close) + pieces[i]
  {
    var before, after := pieces[..i], pieces[..i + 1];
    assert after[..i] == before && after[i] == pieces[i];
    var piece := Piece(pieces[i], i % 2 == 1);
    WrapLast(after);
    assert Wrap(after) == Wrap(before) + piece;
    RenderPiece(pieces[i], i % 2 == 1, open, close);
    RenderAppend(Wrap(before), piece, open, close);
    if i % 2 == 1 {
      AppendAssoc(Render(Wrap(before), open, close) + open, pieces[i], close);
    }
  }

  lemma WrapLast(pieces: seq<string>)
    requires pieces != []
    ensures Wrap(pieces) == Wrap(pieces[..|pieces| - 1]) + Piece(pieces[|pieces| - 1], (|pieces| - 1) % 2 == 1)
  {
  }

  /** One delimiter pass: split on the delimiter, copy even-indexed pieces,
      wrap odd-indexed pieces in the open and close tags. */
  method DelimiterPass(s: string, delim: string, open: string, close: string) returns (html: string)
    requires |delim| > 0
    ensures html == StylePass(s, delim, open, close)
  {
    var pieces := Split(s, delim);
    var inside := false;
    html := "";
    var i := 0;
    while i < |pieces|
      invariant 0 <= i <= |pieces|
      invariant inside == (i % 2 == 1)
      invariant html == Render(Wrap(pieces[..i]), open, close)
    {
      WrapStep(pieces, i, open, close);
      if inside {
        html := html + open + pieces[i] + close;
      } else {
        html := html + pieces[i];
      }
      ParityFlips(i);
      inside := !inside;
      i := i + 1;
    }
    assert pieces[..|pieces|] == pieces;
  }

  lemma ParityFlips(i: nat)
    ensures (i + 1) % 2 == 1 <==> i % 2 != 1
  {
  }

  /** Tags balance and never nest: an automaton over the fragments, with the
      current depth. */
  predicate NestOk(fs: seq<Frag>, depth: int)
    decreases |fs|
  {
    if fs == [] then depth == 0
    else match fs[0]
      case Text(_) => NestOk(fs[1..], depth)
      case Open => depth == 0 && NestOk(fs[1..], 1)
      case Close => depth == 1 && NestOk(fs[1..], 0)
  }

  lemma {:induction false} NestOkAppend(a: seq<Frag>, b: seq<Frag>, depth: int)
    requires NestOk(a, depth) && NestOk(b, 0)
    decreases |a|
    ensures NestOk(a + b, depth)
  {
    if a == [] {
      assert a + b == b;
    } else {
      assert (a + b)[0] == a[0];
      assert (a + b)[1..] == a[1..] + b;
      match a[0]
      case Text(_) => NestOkAppend(a[1..], b, depth);
      case Open => NestOkAppend(a[1..], b, 1);
      case Close => NestOkAppend(a[1..], b, 0);
    }
  }

  /** Number of open tags among the fragments. */
  function Opens(fs: seq<Frag>): nat
  {
    if fs == [] then 0 else (if fs[0] == Open then 1 else 0) + Opens(fs[1..])
  }

  lemma {:induction false} OpensAppend(a: seq<Frag>, b: seq<Frag>)
    ensures Opens(a + b) == Opens(a) + Opens(b)
  {
    if a == [] {
      assert a + b == b;
    } else {
      assert (a + b)[0] == a[0];
      assert (a + b)[1..] == a[1..] + b;
      OpensAppend(a[1..], b);
    }
  }

  lemma PieceBalanced(p: string, inside: bool)
    ensures NestOk(Piece(p, inside), 0)
    ensures Opens(Piece(p, inside)) == if inside then 1 else 0
  {
    var fs := Piece(p, inside);
    if inside {
      assert fs[1..][1..][1..] == [];
      assert NestOk(fs[1..][1..], 1);
      assert Opens(fs[1..][1..]) == 0;
      assert Opens(fs[1..]) == 0;
    } else {
      assert fs[1..] == [];
    }
  }

  /** Every delimiter pass emits balanced, unnested tags, one pair per
      odd-indexed piece. The balance is stated on the fragments; `Render`
      writes them out one by one, so the opening and closing tags alternate
      in the rendered string in the same order. */
  lemma {:induction false} WrapBalanced(pieces: seq<string>)
    ensures NestOk(Wrap(pieces), 0)
    ensures Opens(Wrap(pieces)) == |pieces| / 2
  {
    if pieces != [] {
      var init := pieces[..|pieces| - 1];
      var last := Piece(pieces[|pieces| - 1], (|pieces| - 1) % 2 == 1);
      WrapBalanced(init);
      PieceBalanced(pieces[|pieces| - 1], (|pieces| - 1) % 2 == 1);
      NestOkAppend(Wrap(init), last, 0);
      OpensAppend(Wrap(init), last);
    }
  }

  /** An odd number of delimiters in the text wraps everything after the last
      one, up to the end of the text: nothing closes the last tag early. The
      text ends with the last delimiter and a delimiter-free remainder, and the
      output ends with that remainder between the tags. */
  lemma TrailingRemainderWrapped(s: string, delim: string, open: string, close: string)
    requires |delim| > 0 && Occurrences(s, delim) % 2 == 1
    ensures var pieces := Split(s, delim);
      var init, last := pieces[..|pieces| - 1], pieces[|pieces| - 1];
      && |pieces| >= 2
      && s == Join(init, delim) + delim + last
      && IndexOf(last, delim) == -1
      && StylePass(s, delim, open, close) == Render(Wrap(init), open, close) + open + last + close
  {
    SplitCount(s, delim);
    SplitTail(s, delim);
    RenderOddLast(Split(s, delim), open, close);
  }

  /** The text is the join of all pieces but the last, the delimiter, and the
      last piece, which holds no delimiter. */
  lemma SplitTail(s: string, delim: string)
    requires |delim| > 0 && |Split(s, delim)| >= 2
    ensures var pieces := Split(s, delim);
      && s == Join(pieces[..|pieces| - 1], delim) + delim + pieces[|pieces| - 1]
      && IndexOf(pieces[|pieces| - 1], delim) == -1
  {
    SplitJoin(s, delim);
    JoinLast(Split(s, delim), delim);
    SplitPiecesFree(s, delim);
  }

  /** With an even number of pieces the last one has an odd index and is
      rendered between the tags. */
  lemma RenderOddLast(pieces: seq<string>, open: string, close: string)
    requires |pieces| >= 2 && |pieces| % 2 == 0
    ensures Render(Wrap(pieces), open, close)
      == Render(Wrap(pieces[..|pieces| - 1]), open, close) + open + pieces[|pieces| - 1] + close
  {
    var init, last := pieces[..|pieces| - 1], pieces[|pieces| - 1];
    assert (|pieces| - 1) % 2 == 1;
    WrapLast(pieces);
    assert Wrap(pieces) == Wrap(init) + Piece(last, true);
    RenderAppend(Wrap(init), Piece(last, true), open, close);
    RenderPiece(last, true, open, close);
    AppendAssoc(Render(Wrap(init), open, close) + open, last, close);
  }

  /** A single unmatched delimiter: `pre d rest` renders as
      `pre <open> rest <close>`. */
  lemma UnmatchedDelimiter(pre: string, rest: string, delim: string, open: string, close: string)
    requires |delim| > 0 && StartsNowhereIn(pre, delim) && StartsNowhereIn(rest, delim)
    ensures StylePass(pre + delim + rest, delim, open, close) == pre + open + rest + close
  {
    SplitPair(pre, rest, delim);
    WrapPair(pre, rest);
    RenderPair(pre, rest, open, close);
  }

  lemma RenderPair(pre: string, rest: string, open: string, close: string)
    ensures Render(Piece(pre, false) + Piece(rest, true), open, close) == pre + open + rest + close
  {
    RenderPiece(pre, false, open, close);
    RenderPiece(rest, true, open, close);
    RenderAppend(Piece(pre, false), Piece(rest, true), open, close);
  }

  lemma SplitPair(pre: string, rest: string, delim: string)
    requires |delim| > 0 && StartsNowhereIn(pre, delim) && StartsNowhereIn(rest, delim)
    ensures Split(pre + delim + rest, delim) == [pre, rest]
  {
    var pieces := [pre, rest];
    assert pieces[1..] == [rest];
    forall k | 0 <= k < |pieces| ensures StartsNowhereIn(pieces[k], delim) { }
    JoinSplit(pieces, delim);
  }

  lemma WrapPair(pre: string, rest: string)
    ensures Wrap([pre, rest]) == Piece(pre, false) + Piece(rest, true)
  {
    assert [pre, rest][..1] == [pre];
    assert Wrap([pre]) == Piece(pre, false) by {
      assert [pre][..0] == [];
    }
  }

  /** Text without the delimiter passes through a delimiter pass unchanged. */
  lemma StylePassAbsent(s: string, delim: string, open: string, close: string)
    requires |delim| > 0 && IndexOf(s, delim) == -1
    ensures StylePass(s, delim, open, close) == s
  {
    SplitAbsent(s, delim);
    assert Wrap([s]) == [Text(s)];
    RenderPiece(s, false, open, close);
  }

  /** No two text fragments are adjacent. */
  predicate Separated(fs: seq<Frag>)
  {
    forall i :: 0 <= i < |fs| - 1 ==> !(fs[i].Text? && fs[i + 1].Text?)
  }

  /** The pieces of a pass are separated by tags, and every text fragment is
      one of the pieces. */
  lemma {:induction false} WrapShape(pieces: seq<string>)
    ensures Separated(Wrap(pieces))
    ensures |pieces| > 0 && |pieces| % 2 == 0 ==> |Wrap(pieces)| > 0 && Wrap(pieces)[|Wrap(pieces)| - 1] == Close
    ensures |pieces| > 0 ==> |Wrap(pieces)| > 0
    ensures forall i :: 0 <= i < |Wrap(pieces)| && Wrap(pieces)[i].Text? ==> Wrap(pieces)[i].text in pieces
  {
    if pieces != [] {
      var init := pieces[..|pieces| - 1];
      var p := pieces[|pieces| - 1];
      var last := Piece(p, (|pieces| - 1) % 2 == 1);
      WrapShape(init);
      var w := Wrap(init);
      var all: seq<Frag> := w + last;
      WrapLast(pieces);
      assert Wrap(pieces) == all;
      SeparatedAppend(w, last);
      forall i | 0 <= i < |all| && all[i].Text?
        ensures all[i].text in pieces
      {
        if i < |w| {
          assert all[i] == w[i];
          assert w[i].text in init;
        } else {
          assert all[i].text == p;
        }
      }
    }
  }

  /** Two separated fragment lists stay separated when joined at a tag. */
  lemma SeparatedAppend(a: seq<Frag>, b: seq<Frag>)
    requires Separated(a) && Separated(b)
    requires a != [] && b != [] ==> !(a[|a| - 1].Text? && b[0].Text?)
    ensures Separated(a + b)
  {
    forall i | 0 <= i < |a + b| - 1 ensures !((a + b)[i].Text? && (a + b)[i + 1].Text?) {
      if i + 1 < |a| {
        assert (a + b)[i] == a[i] && (a + b)[i + 1] == a[i + 1];
      } else if i >= |a| {
        assert (a + b)[i] == b[i - |a|] && (a + b)[i + 1] == b[i - |a| + 1];
      }
    }
  }

  /** An occurrence of `pat` cannot straddle a non-empty string none of whose
      characters is in `pat`. */
  lemma NoOccurrenceAround(x: string, t: string, y: string, pat: string)
    requires |pat| > 0 && |t| > 0
    requires IndexOf(x, pat) == -1 && IndexOf(y, pat) == -1
    requires forall c :: c in t ==> c !in pat
    ensures IndexOf(x + t + y, pat) == -1
  {
    var s := x + t + y;
    assert s == x + (t + y);
    forall j | 0 <= j ensures !OccursAt(s, pat, j) {
      if j + |pat| <= |s| {
        if j + |pat| <= |x| {
          SlicePrefix(x, t + y, j, |pat|);
          assert !OccursAt(x, pat, j);
        } else if j >= |x| + |t| {
          SliceSuffix(x + t, y, j, |pat|);
          assert !OccursAt(y, pat, j - |x| - |t|);
        } else {
          var q := if j < |x| then |x| else j;
          assert s[q] == t[q - |x|];
          assert t[q - |x|] in t;
          assert s[j..j + |pat|][q - j] == s[q];
          assert s[j..j + |pat|][q - j] !in pat;
        }
      }
    }
  }

  lemma SlicePrefix(a: string, b: string, j: int, n: int)
    requires 0 <= j && 0 <= n && j + n <= |a|
    ensures (a + b)[j..j + n] == a[j..j + n]
  {
  }

  lemma SliceSuffix(a: string, b: string, j: int, n: int)
    requires |a| <= j && 0 <= n && j + n <= |a| + |b|
    ensures (a + b)[j..j + n] == b[j - |a|..j - |a| + n]
  {
  }

  /** Rendering fragments whose texts hold no delimiter, with tags that share
      no character with it, produces no delimiter. */
  lemma {:induction false} RenderFree(fs: seq<Frag>, delim: string, open: string, close: string)
    requires |delim| > 0 && |open| > 0 && |close| > 0
    requires forall c :: c in open ==> c !in delim
    requires forall c :: c in close ==> c !in delim
    requires Separated(fs)
    requires forall i :: 0 <= i < |fs| && fs[i].Text? ==> IndexOf(fs[i].text, delim) == -1
    decreases |fs|
    ensures IndexOf(Render(fs, open, close), delim) == -1
  {
    if fs != [] {
      if !fs[0].Text? {
        var t := if fs[0] == Open then open else close;
        FreeSuffix(fs, 1, delim);
        RenderFree(fs[1..], delim, open, close);
        RenderTagFirst(fs, open, close);
        NoOccurrenceAround("", t, Render(fs[1..], open, close), delim);
      } else if |fs| == 1 {
        assert Render(fs, open, close) == fs[0].text;
      } else {
        var t := if fs[1] == Open then open else close;
        FreeSuffix(fs, 2, delim);
        RenderFree(fs[2..], delim, open, close);
        RenderTextThenTag(fs, open, close);
        NoOccurrenceAround(fs[0].text, t, Render(fs[2..], open, close), delim);
      }
    }
  }

  /** A suffix of separated, delimiter-free fragments is so too. */
  lemma FreeSuffix(fs: seq<Frag>, k: nat, delim: string)
    requires k <= |fs| && Separated(fs)
    requires forall i :: 0 <= i < |fs| && fs[i].Text? ==> IndexOf(fs[i].text, delim) == -1
    ensures Separated(fs[k..])
    ensures forall i :: 0 <= i < |fs[k..]| && fs[k..][i].Text? ==> IndexOf(fs[k..][i].text, delim) == -1
  {
    forall i | 0 <= i < |fs[k..]| - 1 ensures !(fs[k..][i].Text? && fs[k..][i + 1].Text?) {
      assert fs[k..][i] == fs[k + i] && fs[k..][i + 1] == fs[k + i + 1];
    }
    forall i | 0 <= i < |fs[k..]| && fs[k..][i].Text? ensures IndexOf(fs[k..][i].text, delim) == -1 {
      assert fs[k..][i] == fs[k + i];
    }
  }

  lemma RenderTagFirst(fs: seq<Frag>, open: string, close: string)
    requires fs != [] && !fs[0].Text?
    ensures Render(fs, open, close) == "" + (if fs[0] == Open then open else close) + Render(fs[1..], open, close)
  {
  }

  lemma RenderTextThenTag(fs: seq<Frag>, open: string, close: string)
    requires |fs| >= 2 && fs[0].Text? && !fs[1].Text?
    ensures Render(fs, open, close) == fs[0].text + (if fs[1] == Open then open else close) + Render(fs[2..], open, close)
  {
    assert fs[1..][1..] == fs[2..];
    RenderTagFirst(fs[1..], open, close);
  }

  /** A delimiter pass consumes its delimiter: none is left in its output
      when the tags share no character with it. */
  lemma StylePassConsumesDelimiter(s: string, delim: string, open: string, close: string)
    requires |delim| > 0 && |open| > 0 && |close| > 0
    requires forall c :: c in open ==> c !in delim
    requires forall c :: c in close ==> c !in delim
    ensures IndexOf(StylePass(s, delim, open, close), delim) == -1
  {
    var pieces := Split(s, delim);
    SplitPiecesFree(s, delim);
    WrapShape(pieces);
    var fs := Wrap(pieces);
    forall i | 0 <= i < |fs| && fs[i].Text? ensures IndexOf(fs[i].text, delim) == -1 {
      var k :| 0 <= k < |pieces| && pieces[k] == fs[i].text;
    }
    RenderFree(fs, delim, open, close);
  }

  /** Because `**` is consumed before `*`, no `**` survives to the italic pass. */
  lemma BoldLeavesNoDoubleStar(s: string)
    ensures IndexOf(StylePass(s, "**", "<strong>", "</strong>"), "**") == -1
  {
    StylePassConsumesDelimiter(s, "**", "<strong>", "</strong>");
  }

  // ---------------------------------------------------------------------
  // Links

  const AnchorOpen: string := "<a href=\""
  const AnchorMid: string := "\">"
  const AnchorClose: string := "</a>"

  /** The text a rewrite produces, given the positions of the first `[`,
      `]`, `(` and `)`: the text before the `[`, then an anchor whose target
      lies between the parentheses and whose caption lies between the
      brackets, then the text after the `)`.  A missing bracket has
      position -1, which `substring` clamps. */
  function Anchor(s: string, lb: int, rb: int, lp: int, rp: int): string
  {
    Substring(s, 0, lb)
    + AnchorTag(Substring(s, lp + 1, rp), Substring(s, lb + 1, rb))
    + SubstringFrom(s, rp + 1)
  }

  /** `<a href="href">caption</a>`. */
  function AnchorTag(href: string, caption: string): string
  {
    AnchorOpen + href + AnchorMid + caption + AnchorClose
  }

  /** One rewrite of the link loop, at the first of each bracket (every
      `indexOf` here looks for one character, so `CharIndex` is that call). */
  function LinkStep(s: string): string
  {
    Anchor(s, CharIndex(s, '['), CharIndex(s, ']'), CharIndex(s, '('), CharIndex(s, ')'))
  }

  /** The link loop run for at most `fuel` rewrites: `None` when a `[` is
      still left after them (the loop in the client would go on). */
  function LinkLoop(s: string, fuel: nat): Option<string>
    decreases fuel, 1
  {
    if CharIndex(s, '[') == -1 then Some(s)
    else if fuel == 0 then None
    else Rewritten(s, fuel - 1)
  }

  /** The rest of the link loop, with `fewer` turns left, after rewriting the
      first link of `s`. */
  function Rewritten(s: string, fewer: nat): Option<string>
    decreases fewer, 2
  {
    LinkLoop(LinkStep(s), fewer)
  }

  /** Whatever the loop returns has no `[` left. */
  lemma {:induction false} LinkLoopResolves(s: string, fuel: nat)
    decreases fuel
    ensures LinkLoop(s, fuel).Some? ==> '[' !in LinkLoop(s, fuel).value
  {
    if CharIndex(s, '[') != -1 && fuel > 0 {
      var fewer := fuel - 1;
      LinkLoopTurn(s, fuel, fewer);
      LinkLoopResolves(LinkStep(s), fewer);
    }
  }

  /** One turn of the loop on text that still has a `[`. */
  lemma LinkLoopTurn(s: string, fuel: nat, fewer: nat)
    requires CharIndex(s, '[') != -1 && fewer + 1 == fuel
    ensures LinkLoop(s, fuel) == LinkLoop(LinkStep(s), fewer)
  {
    assert LinkLoop(s, fewer + 1) == Rewritten(s, fewer + 1 - 1);
  }

  /** The link loop: rewrite while a `[` remains, for at most `fuel` steps. */
  method ResolveLinks(s: string, fuel: nat) returns (r: Option<string>)
    ensures r == LinkLoop(s, fuel)
  {
    var html := s;
    var left := fuel;
    while left > 0 && CharIndex(html, '[') != -1
      invariant LinkLoop(html, left) == LinkLoop(s, fuel)
    {
      var next, fewer := LinkStep(html), left - 1;
      LinkLoopTurn(html, left, fewer);
      html, left := next, fewer;
    }
    if CharIndex(html, '[') == -1 {
      r := Some(html);
    } else {
      r := None;
    }
  }

  /** None of the four link characters. */
  predicate Bracketless(t: string)
  {
    '[' !in t && ']' !in t && '(' !in t && ')' !in t
  }

  /** `[caption](url)`, a link as a writer types it. */
  function LinkText(caption: string, url: string): string
  {
    "[" + caption + "](" + url + ")"
  }

  /** A link written after `pre` and followed by `post`. */
  function LinkSource(pre: string, caption: string, url: string, post: string): string
  {
    pre + LinkText(caption, url) + post
  }

  /** The positions of the four brackets in `LinkSource(pre, caption, url, post)`. */
  predicate LinkPositions(pre: string, caption: string, url: string, a: int, b: int, c: int, d: int)
  {
    a == |pre| && b == a + 1 + |caption| && c == b + 1 && d == c + 1 + |url|
  }

  /** In a well-formed link the first of each bracket is the link's own. */
  lemma LinkBrackets(pre: string, caption: string, url: string, post: string, a: int, b: int, c: int, d: int)
    requires Bracketless(pre) && Bracketless(caption) && ')' !in url
    requires LinkPositions(pre, caption, url, a, b, c, d)
    ensures var s := LinkSource(pre, caption, url, post);
      CharIndex(s, '[') == a && CharIndex(s, ']') == b &&
      CharIndex(s, '(') == c && CharIndex(s, ')') == d
  {
    var s := LinkSource(pre, caption, url, post);
    assert s[..a] == pre;
    CharIndexAt(s, '[', a);
    assert s[..b] == pre + "[" + caption;
    CharIndexAt(s, ']', b);
    assert s[..c] == pre + "[" + caption + "]";
    CharIndexAt(s, '(', c);
    assert s[..d] == pre + "[" + caption + "](" + url;
    CharIndexAt(s, ')', d);
  }

  lemma LinkPartPre(pre: string, caption: string, url: string, post: string, a: int)
    requires a == |pre|
    ensures Substring(LinkSource(pre, caption, url, post), 0, a) == pre
  {
    var s := LinkSource(pre, caption, url, post);
    assert s == pre + "[" + (caption + "](" + url + ")" + post);
    SliceMiddle(pre, "[", caption + "](" + url + ")" + post);
  }

  lemma LinkPartCaption(pre: string, caption: string, url: string, post: string, a: int, b: int)
    requires a == |pre| && b == a + 1 + |caption|
    ensures Substring(LinkSource(pre, caption, url, post), a + 1, b) == caption
  {
    var s := LinkSource(pre, caption, url, post);
    assert s == (pre + "[") + caption + ("](" + url + ")" + post);
    SliceMiddle(pre + "[", caption, "](" + url + ")" + post);
  }

  lemma LinkPartUrl(pre: string, caption: string, url: string, post: string, c: int, d: int)
    requires c == |pre| + 2 + |caption| && d == c + 1 + |url|
    ensures Substring(LinkSource(pre, caption, url, post), c + 1, d) == url
  {
    var s := LinkSource(pre, caption, url, post);
    assert s == (pre + "[" + caption + "](") + url + (")" + post);
    SliceMiddle(pre + "[" + caption + "](", url, ")" + post);
  }

  lemma LinkPartPost(pre: string, caption: string, url: string, post: string, d: int)
    requires d == |pre| + 3 + |caption| + |url|
    ensures SubstringFrom(LinkSource(pre, caption, url, post), d + 1) == post
  {
    var s := LinkSource(pre, caption, url, post);
    assert s == (pre + "[" + caption + "](" + url) + ")" + post;
    SliceMiddle(pre + "[" + caption + "](" + url, ")", post);
  }

  /** The anchor built from a well-formed link's bracket positions. */
  lemma LinkAnchor(pre: string, caption: string, url: string, post: string, a: int, b: int, c: int, d: int)
    requires LinkPositions(pre, caption, url, a, b, c, d)
    ensures Anchor(LinkSource(pre, caption, url, post), a, b, c, d)
      == pre + AnchorTag(url, caption) + post
  {
    LinkPartPre(pre, caption, url, post, a);
    LinkPartCaption(pre, caption, url, post, a, b);
    LinkPartUrl(pre, caption, url, post, c, d);
    LinkPartPost(pre, caption, url, post, d);
  }

  /** A rewrite is the anchor at the positions the scans find. */
  lemma LinkStepAt(s: string, a: int, b: int, c: int, d: int)
    requires CharIndex(s, '[') == a && CharIndex(s, ']') == b
    requires CharIndex(s, '(') == c && CharIndex(s, ')') == d
    ensures LinkStep(s) == Anchor(s, a, b, c, d)
  {
  }

  /** One step on a well-formed link: the anchor replaces `[caption](url)`. */
  lemma LinkStepWellFormed(pre: string, caption: string, url: string, post: string)
    requires Bracketless(pre) && Bracketless(caption) && ')' !in url
    ensures CharIndex(LinkSource(pre, caption, url, post), '[') == |pre|
    ensures LinkStep(LinkSource(pre, caption, url, post))
      == pre + AnchorTag(url, caption) + post
  {
    var s := LinkSource(pre, caption, url, post);
    var a := |pre|;
    var b := a + 1 + |caption|;
    var c := b + 1;
    var d := c + 1 + |url|;
    LinkBrackets(pre, caption, url, post, a, b, c, d);
    LinkStepAt(s, a, b, c, d);
    LinkAnchor(pre, caption, url, post, a, b, c, d);
  }

  /** A message as a writer composes it: plain runs and `[caption](url)` links. */
  datatype Segment = Plain(text: string) | Link(caption: string, url: string)

  predicate WellFormedSegments(segs: seq<Segment>)
  {
    forall i :: 0 <= i < |segs| ==>
      match segs[i]
      case Plain(t) => Bracketless(t)
      case Link(l, u) => Bracketless(l) && Bracketless(u)
  }

  /** The text of the segments, links written `[caption](url)`. */
  function Source(segs: seq<Segment>): string
  {
    if segs == [] then ""
    else (match segs[0]
          case Plain(t) => t
          case Link(l, u) => LinkText(l, u)) + Source(segs[1..])
  }

  /** The text of the segments with every link an anchor. */
  function Anchors(segs: seq<Segment>): string
  {
    if segs == [] then ""
    else (match segs[0]
          case Plain(t) => t
          case Link(l, u) => AnchorTag(u, l)) + Anchors(segs[1..])
  }

  function LinkCount(segs: seq<Segment>): nat
  {
    if segs == [] then 0 else (if segs[0].Link? then 1 else 0) + LinkCount(segs[1..])
  }

  lemma AnchorTagsBracketless()
    ensures Bracketless(AnchorOpen) && Bracketless(AnchorMid) && Bracketless(AnchorClose)
  {
  }

  lemma WellFormedTail(segs: seq<Segment>)
    requires segs != [] && WellFormedSegments(segs)
    ensures WellFormedSegments(segs[1..])
    ensures segs[0].Plain? ==> Bracketless(segs[0].text)
    ensures segs[0].Link? ==> Bracketless(segs[0].caption) && Bracketless(segs[0].url)
  {
    assert segs[0] == segs[0];
    forall i | 0 <= i < |segs[1..]| ensures segs[1..][i] == segs[i + 1] { }
  }

  lemma AppendAssoc(a: string, b: string, c: string)
    ensures a + (b + c) == a + b + c
  {
  }

  lemma AnchorTagBracketless(href: string, caption: string)
    requires Bracketless(href) && Bracketless(caption)
    ensures Bracketless(AnchorTag(href, caption))
  {
    AnchorTagsBracketless();
  }

  /** One turn of the loop on a well-formed link. */
  lemma LinkLoopPastLink(done: string, caption: string, url: string, post: string, fuel: nat, fewer: nat)
    requires Bracketless(done) && Bracketless(caption) && ')' !in url && fewer + 1 == fuel
    ensures LinkLoop(LinkSource(done, caption, url, post), fuel)
      == LinkLoop(done + AnchorTag(url, caption) + post, fewer)
  {
    LinkStepWellFormed(done, caption, url, post);
    LinkLoopTurn(LinkSource(done, caption, url, post), fuel, fewer);
  }

  /** A link followed by text that the loop, started after the link's anchor
      with one turn fewer, turns into `anc`. */
  lemma LinkThenRest(done: string, caption: string, url: string, src: string, anc: string,
                     fuel: nat, fewer: nat)
    requires Bracketless(done) && Bracketless(caption) && Bracketless(url) && fewer + 1 == fuel
    requires LinkLoop(done + AnchorTag(url, caption) + src, fewer)
      == Some(done + AnchorTag(url, caption) + anc)
    ensures LinkLoop(done + (LinkText(caption, url) + src), fuel)
      == Some(done + (AnchorTag(url, caption) + anc))
  {
    LinkLoopPastLink(done, caption, url, src, fuel, fewer);
    AppendAssoc(done, LinkText(caption, url), src);
    AppendAssoc(done, AnchorTag(url, caption), anc);
  }

  /** The loop on text whose first part `done` has no brackets left. */
  lemma {:induction false} LinkLoopFrom(done: string, segs: seq<Segment>, fuel: nat)
    requires Bracketless(done) && WellFormedSegments(segs) && fuel >= LinkCount(segs)
    decreases |segs|, 1
    ensures LinkLoop(done + Source(segs), fuel) == Some(done + Anchors(segs))
  {
    if segs == [] {
      assert done + Source(segs) == done;
      assert done + Anchors(segs) == done;
    } else if segs[0].Plain? {
      LinkLoopFromPlain(done, segs, fuel);
    } else {
      LinkLoopFromLink(done, segs, fuel);
    }
  }

  /** `LinkLoopFrom` when the text goes on with a plain run. */
  lemma {:induction false} LinkLoopFromPlain(done: string, segs: seq<Segment>, fuel: nat)
    requires Bracketless(done) && WellFormedSegments(segs) && fuel >= LinkCount(segs)
    requires segs != [] && segs[0].Plain?
    decreases |segs|, 0
    ensures LinkLoop(done + Source(segs), fuel) == Some(done + Anchors(segs))
  {
    var t := segs[0].text;
    var rest := segs[1..];
    WellFormedTail(segs);
    assert Source(segs) == t + Source(rest);
    AppendAssoc(done, t, Source(rest));
    LinkLoopFrom(done + t, rest, fuel);
    assert Anchors(segs) == t + Anchors(rest);
    AppendAssoc(done, t, Anchors(rest));
  }

  /** `LinkLoopFrom` when the text goes on with a link. */
  lemma {:induction false} LinkLoopFromLink(done: string, segs: seq<Segment>, fuel: nat)
    requires Bracketless(done) && WellFormedSegments(segs) && fuel >= LinkCount(segs)
    requires segs != [] && segs[0].Link?
    decreases |segs|, 0
    ensures LinkLoop(done + Source(segs), fuel) == Some(done + Anchors(segs))
  {
    var l, u := segs[0].caption, segs[0].url;
    var rest := segs[1..];
    WellFormedTail(segs);
    var src, anc := Source(rest), Anchors(rest);
    assert Source(segs) == LinkText(l, u) + src;
    assert Anchors(segs) == AnchorTag(u, l) + anc;
    AnchorTagBracketless(u, l);
    var next, left := done + AnchorTag(u, l), fuel - 1;
    LinkLoopFrom(next, rest, left);
    LinkThenRest(done, l, u, src, anc, fuel, left);
  }

  /** On well-formed `[caption](url)` links the loop ends within one step per
      link and turns every link into an anchor. */
  lemma LinkLoopWellFormed(segs: seq<Segment>, fuel: nat)
    requires WellFormedSegments(segs) && fuel >= LinkCount(segs)
    ensures LinkLoop(Source(segs), fuel) == Some(Anchors(segs))
  {
    LinkLoopFrom("", segs, fuel);
    assert "" + Source(segs) == Source(segs);
    assert "" + Anchors(segs) == Anchors(segs);
  }

  /** A text the loop never finishes with: a `[` is left, and the first `)`
      (or none) comes before the first `[`. */
  predicate Stuck(s: string)
  {
    CharIndex(s, '[') >= 0 && CharIndex(s, ')') < CharIndex(s, '[')
  }

  /** Keeping the text before the first `[` and everything after the first
      `)` keeps both where they were relative to each other. */
  lemma StuckKept(s: string, i: int, j: int, mid: string, t: string)
    requires 0 <= i < |s| && -1 <= j < i && s[i] == '[' && '[' !in s[..i]
    requires j == -1 ==> ')' !in s && ')' !in mid
    requires j >= 0 ==> s[j] == ')' && ')' !in s[..j]
    requires t == s[..i] + mid + s[j + 1..]
    ensures Stuck(t)
  {
    var k := i + |mid| + (i - j - 1);
    assert t[k] == s[i];
    forall m | 0 <= m < i ensures t[m] != '[' {
      assert t[m] == s[..i][m];
    }
    if j == -1 {
      assert ')' !in t;
    } else {
      assert t[..j] == s[..j];
      CharIndexAt(t, ')', j);
    }
  }

  /** The anchor at in-range positions of the first `[` and the first `)`. */
  lemma AnchorAround(s: string, lb: int, rb: int, lp: int, rp: int)
    requires 0 <= lb <= |s| && -1 <= rp < |s|
    ensures Anchor(s, lb, rb, lp, rp)
      == s[..lb] + AnchorTag(Substring(s, lp + 1, rp), Substring(s, lb + 1, rb)) + s[rp + 1..]
  {
  }

  lemma AnchorTagNoClose(href: string, caption: string)
    requires ')' !in href && ')' !in caption
    ensures ')' !in AnchorTag(href, caption)
  {
    AnchorTagsBracketless();
  }

  /** A step keeps a stuck text stuck. */
  lemma StuckStep(s: string)
    requires Stuck(s)
    ensures Stuck(LinkStep(s))
  {
    var i := CharIndex(s, '[');
    var rb := CharIndex(s, ']');
    var lp := CharIndex(s, '(');
    var j := CharIndex(s, ')');
    var href := Substring(s, lp + 1, j);
    var caption := Substring(s, i + 1, rb);
    var mid := AnchorTag(href, caption);
    var t := LinkStep(s);
    LinkStepAt(s, i, rb, lp, j);
    AnchorAround(s, i, rb, lp, j);
    assert '[' !in s[..i] by {
      forall k | 0 <= k < i ensures s[..i][k] != '[' { }
    }
    if j >= 0 {
      assert ')' !in s[..j] by {
        forall k | 0 <= k < j ensures s[..j][k] != ')' { }
      }
    } else {
      AnchorTagNoClose(href, caption);
    }
    StuckKept(s, i, j, mid, t);
  }

  /** A stuck text never leaves the loop, however much fuel it is given. */
  lemma {:induction false} StuckDiverges(s: string, fuel: nat)
    requires Stuck(s)
    decreases fuel
    ensures LinkLoop(s, fuel) == None
  {
    if fuel > 0 {
      var fewer := fuel - 1;
      LinkLoopTurn(s, fuel, fewer);
      StuckStep(s);
      StuckDiverges(LinkStep(s), fewer);
    }
  }

  /** `a[b` (no `)` at all) and `(x) [a](b)` (a `)` before the first `[`)
      keep the client's loop running forever. */
  lemma DivergingExamples(fuel: nat)
    ensures LinkLoop("a[b", fuel) == None
    ensures LinkLoop("(x) [a](b)", fuel) == None
  {
    var s1 := "a[b";
    assert s1[..1] == "a";
    CharIndexAt(s1, '[', 1);
    assert ')' !in s1;
    StuckDiverges(s1, fuel);
    var s2 := "(x) [a](b)";
    assert s2[..2] == "(x";
    CharIndexAt(s2, ')', 2);
    assert s2[..4] == "(x) ";
    CharIndexAt(s2, '[', 4);
    StuckDiverges(s2, fuel);
  }

  // ---------------------------------------------------------------------
  // Shortcodes

  /** The glyph markup that replaces a reaction shortcode. */
  function Icon(k: Kind): string
  {
    match k
    case Smile => "<iconify-icon icon=\"emojione:smiling-face\"></iconify-icon>"
    case Frown => "<iconify-icon icon=\"emojione:frowning-face\"></iconify-icon>"
    case Like => "<iconify-icon icon=\"emojione:thumbs-up\"></iconify-icon>"
    case Celebrate => "<iconify-icon icon=\"emojione:party-popper\"></iconify-icon>"
  }

  /** Replace one shortcode everywhere. */
  function ReplaceShortcode(s: string, k: Kind): string
  {
    ReplaceAll(s, Shortcode(k), Icon(k))
  }

  /** The shortcode stage: smile, then frown, then like, then celebrate. */
  function ReplaceShortcodes(s: string): string
  {
    ReplaceShortcode(ReplaceShortcode(ReplaceShortcode(ReplaceShortcode(s, Smile), Frown), Like), Celebrate)
  }

  /** Every shortcode starts with `:`, so text without one is left alone. */
  lemma ShortcodesNeedColon(s: string)
    requires ':' !in s
    ensures ReplaceShortcodes(s) == s
  {
    forall k: Kind ensures ReplaceShortcode(s, k) == s {
      assert Shortcode(k)[0] == ':';
      IndexOfAbsent(s, Shortcode(k));
    }
  }

  // ---------------------------------------------------------------------
  // The whole pipeline

  /** The message text: a missing message is the empty string. */
  function MessageText(msg: Option<string>): string
  {
    if msg.Some? then msg.value else ""
  }

  /** The markup of a message, or `None` when the link loop does not end
      within `fuel` steps. */
  function Markup(msg: Option<string>, fuel: nat): Option<string>
  {
    MarkupText(MessageText(msg), fuel)
  }

  /** The markup of the message text. */
  function MarkupText(text: string, fuel: nat): Option<string>
  {
    var lined := Breaks(text) + LineBreak;
    var bold := StylePass(lined, "**", "<strong>", "</strong>");
    var ital := StylePass(bold, "*", "<em>", "</em>");
    var sup := StylePass(ital, "^^", "<sup>", "</sup>");
    var sub := StylePass(sup, "__", "<sub>", "</sub>");
    match LinkLoop(sub, fuel)
    case None => None
    case Some(linked) => Some(ReplaceShortcodes(linked))
  }

  /** The passes of `display()` on a post's message, in order. */
  method RenderMessage(msg: Option<string>, fuel: nat) returns (html: Option<string>)
    ensures html == Markup(msg, fuel)
  {
    var text := if msg.Some? then msg.value else "";
    var s := NewlinePass(text);
    s := DelimiterPass(s, "**", "<strong>", "</strong>");
    s := DelimiterPass(s, "*", "<em>", "</em>");
    s := DelimiterPass(s, "^^", "<sup>", "</sup>");
    s := DelimiterPass(s, "__", "<sub>", "</sub>");
    var linked := ResolveLinks(s, fuel);
    if linked.Some? {
      html := Some(ReplaceShortcodes(linked.value));
    } else {
      html := None;
    }
  }

  /** None of the characters any pass reacts to. */
  predicate PlainText(t: string)
  {
    '\n' !in t && '*' !in t && '^' !in t && '_' !in t && '[' !in t && ':' !in t
  }

  /** Text without markup characters comes out as itself plus the trailing
      break; in particular the empty or missing message renders `<br/>`. */
  lemma PlainTextRendersItself(t: string, fuel: nat)
    requires PlainText(t)
    ensures MarkupText(t, fuel) == Some(t + LineBreak)
  {
    BreaksPlain(t);
    LineBreakChars();
    var s := t + LineBreak;
    assert PlainText(LineBreak);
    assert PlainText(s);
    IndexOfAbsent(s, "**");
    StylePassAbsent(s, "**", "<strong>", "</strong>");
    IndexOfAbsent(s, "*");
    StylePassAbsent(s, "*", "<em>", "</em>");
    IndexOfAbsent(s, "^^");
    StylePassAbsent(s, "^^", "<sup>", "</sup>");
    IndexOfAbsent(s, "__");
    StylePassAbsent(s, "__", "<sub>", "</sub>");
    ShortcodesNeedColon(s);
  }

  /** A missing or empty message renders as a single break. */
  lemma EmptyMessageRendersBreak(msg: Option<string>, fuel: nat)
    requires msg.None? || msg.value == ""
    ensures Markup(msg, fuel) == Some(LineBreak)
  {
    var t := MessageText(msg);
    assert t == [];
    PlainTextRendersItself(t, fuel);
    assert t + LineBreak == LineBreak;
  }

  lemma SplitTriple(pre: string, x: string, rest: string, delim: string)
    requires |delim| > 0
    requires StartsNowhereIn(pre, delim) && StartsNowhereIn(x, delim) && StartsNowhereIn(rest, delim)
    ensures Split(pre + delim + x + delim + rest, delim) == [pre, x, rest]
  {
    var pieces := [pre, x, rest];
    assert pieces[1..][1..] == [rest];
    assert Join(pieces[1..], delim) == x + delim + rest;
    assert Join(pieces, delim) == pre + delim + (x + delim + rest);
    assert Join(pieces, delim) == pre + delim + x + delim + rest;
    forall k | 0 <= k < |pieces| ensures StartsNowhereIn(pieces[k], delim) { }
    JoinSplit(pieces, delim);
  }

  lemma WrapTriple(pre: string, x: string, rest: string)
    ensures Wrap([pre, x, rest]) == Piece(pre, false) + Piece(x, true) + Piece(rest, false)
  {
    var p3 := [pre, x, rest];
    var p2 := p3[..2];
    var p1 := p2[..1];
    assert p2 == [pre, x] && p1 == [pre];
    assert Wrap(p1) == Piece(pre, false) by {
      assert p1[..0] == [];
    }
    assert Wrap(p2) == Wrap(p1) + Piece(x, true);
    assert Wrap(p3) == Wrap(p2) + Piece(rest, false);
  }

  lemma RenderTriple(pre: string, x: string, rest: string, open: string, close: string)
    ensures Render(Piece(pre, false) + Piece(x, true) + Piece(rest, false), open, close)
      == pre + open + x + close + rest
  {
    var first, inner, last := Piece(pre, false), Piece(x, true), Piece(rest, false);
    RenderPiece(pre, false, open, close);
    RenderPiece(x, true, open, close);
    RenderPiece(rest, false, open, close);
    RenderAppend(first, inner, open, close);
    RenderAppend(first + inner, last, open, close);
    assert Render(first + inner, open, close) == pre + open + x + close;
  }

  /** A pass over `pre delim x delim rest`, where no delimiter starts inside
      `pre`, `x` or `rest`, wraps `x` in the tags and copies the rest. */
  lemma StylePassTriple(pre: string, x: string, rest: string, delim: string, open: string, close: string)
    requires |delim| > 0
    requires StartsNowhereIn(pre, delim) && StartsNowhereIn(x, delim) && StartsNowhereIn(rest, delim)
    ensures StylePass(pre + delim + x + delim + rest, delim, open, close) == pre + open + x + close + rest
  {
    SplitTriple(pre, x, rest, delim);
    WrapTriple(pre, x, rest);
    RenderTriple(pre, x, rest, open, close);
  }

  /** The strong tags hold no `*`, so neither does `<strong>x</strong><br/>`
      for `x` without one. */
  lemma BoldStarless(x: string)
    requires '*' !in x
    ensures '*' !in "<strong>" + x + "</strong>" + LineBreak
  {
    var open, close := "<strong>", "</strong>";
    assert forall k :: 0 <= k < |open| ==> open[k] != '*';
    assert forall k :: 0 <= k < |close| ==> close[k] != '*';
    assert forall k :: 0 <= k < |LineBreak| ==> LineBreak[k] != '*';
  }

  lemma LinedStrong(x: string)
    requires '*' !in x && '\n' !in x
    ensures Breaks("**" + x + "**") + LineBreak == "**" + x + "**" + LineBreak
  {
    assert '\n' !in "**" + x + "**";
    BreaksPlain("**" + x + "**");
  }

  lemma BoldPass(x: string)
    requires '*' !in x
    ensures StylePass("**" + x + "**" + LineBreak, "**", "<strong>", "</strong>")
      == "<strong>" + x + "</strong>" + LineBreak
  {
    LineBreakChars();
    StylePassTriple("", x, LineBreak, "**", "<strong>", "</strong>");
    assert "" + "**" + x + "**" + LineBreak == "**" + x + "**" + LineBreak;
    assert "" + "<strong>" + x + "</strong>" + LineBreak == "<strong>" + x + "</strong>" + LineBreak;
  }

  /** `**x**` becomes strong text, never emphasis: the italic pass finds no
      `*` left. */
  lemma StrongNeverEmphasis(x: string)
    requires '*' !in x && '\n' !in x
    ensures var lined := Breaks("**" + x + "**") + LineBreak;
      StylePass(StylePass(lined, "**", "<strong>", "</strong>"), "*", "<em>", "</em>")
        == "<strong>" + x + "</strong>" + LineBreak
  {
    var bold := "<strong>" + x + "</strong>" + LineBreak;
    LineBreakChars();
    LinedStrong(x);
    BoldPass(x);
    BoldStarless(x);
    IndexOfAbsent(bold, "*");
    StylePassAbsent(bold, "*", "<em>", "</em>");
  }
}
