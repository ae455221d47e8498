/**
 Schema comments: `_one_line` collapses white space, `_comment_block` wraps the words greedily
 into `--` lines of at most 78 characters, `_sql_literal` quotes them for PostgreSQL.
 */
module CommentWrap {
  import opened Wrappers
  import opened Text

  const MAX_WIDTH: nat := 78

  // ---------------------------------------------------------------------------------------
  // Words
  // ---------------------------------------------------------------------------------------

  /** Length of the word at the start of `s`. */
  function WordLength(s: string): (n: nat)
    ensures n <= |s| && (forall i :: 0 <= i < n ==> !IsSpace(s[i])) && (n < |s| ==> IsSpace(s[n]))
  {
    if s == [] || IsSpace(s[0]) then 0 else 1 + WordLength(s[1..])
  }

  ghost predicate IsWord(w: string) {
    w != [] && forall i :: 0 <= i < |w| ==> !IsSpace(w[i])
  }

  ghost predicate AreWords(ws: seq<string>) {
    forall i :: 0 <= i < |ws| ==> IsWord(ws[i])
  }

  /** `text.split()` */
  function Words(s: string): (ws: seq<string>)
    ensures AreWords(ws)
    decreases |s|
  {
    if s == [] then []
    else if IsSpace(s[0]) then Words(s[1..])
    else [s[..WordLength(s)]] + Words(s[WordLength(s)..])
  }

  /** `" ".join(ws)` */
  function Join(ws: seq<string>): string {
    if ws == [] then "" else if |ws| == 1 then ws[0] else Join(ws[..|ws| - 1]) + " " + ws[|ws| - 1]
  }

  /** `text.split(" ")`: cuts at every single space, keeping empty pieces. */
  function SplitAtSpaces(s: string): seq<string> {
    if s == [] then [""]
    else
      var cut := SplitAtSpaces(s[..|s| - 1]);
      if s[|s| - 1] == ' ' then cut + [""]
      else cut[..|cut| - 1] + [cut[|cut| - 1] + [s[|s| - 1]]]
  }

  function OneLine(text: string): string {
    Join(Words(text))
  }

  lemma WordsOfWord(w: string, rest: string)
    requires IsWord(w) && (rest == [] || IsSpace(rest[0]))
    ensures WordLength(w + rest) == |w| && Words(w + rest) == [w] + Words(rest)
  {
    var n := WordLength(w + rest);
    assert forall i :: 0 <= i < |w| ==> (w + rest)[i] == w[i];
    assert rest != [] ==> (w + rest)[|w|] == rest[0];
    assert n == |w|;
    assert (w + rest)[..|w|] == w && (w + rest)[|w|..] == rest;
  }

  lemma FirstWord(s: string)
    requires s != [] && !IsSpace(s[0])
    ensures var n := WordLength(s);
      && n > 0 && IsWord(s[..n]) && (s[n..] == [] || IsSpace(s[n..][0]))
      && Words(s) == [s[..n]] + Words(s[n..])
  {
  }

  lemma Regroup<T>(a: seq<T>, b: seq<T>, c: seq<T>)
    ensures (a + b) + c == a + (b + c)
  {
  }

  /** Words found before a white space are found again when more text follows. */
  lemma {:induction false} WordsConcat(s: string, rest: string)
    requires rest == [] || IsSpace(rest[0])
    ensures Words(s + rest) == Words(s) + Words(rest)
    decreases |s|
  {
    if s == [] {
      assert s + rest == rest;
    } else if IsSpace(s[0]) {
      assert (s + rest)[1..] == s[1..] + rest;
      WordsConcat(s[1..], rest);
    } else {
      FirstWord(s);
      var n := WordLength(s);
      WordsConcat(s[n..], rest);
      WordsAfterFirst(s[..n], s[n..], rest);
      assert s == s[..n] + s[n..];
    }
  }

  lemma WordsAfterFirst(w: string, t: string, rest: string)
    requires IsWord(w) && (t == [] || IsSpace(t[0])) && (rest == [] || IsSpace(rest[0]))
    requires Words(t + rest) == Words(t) + Words(rest)
    ensures Words((w + t) + rest) == ([w] + Words(t)) + Words(rest)
  {
    Regroup(w, t, rest);
    assert t == [] ==> t + rest == rest;
    WordsOfWord(w, t + rest);
    Regroup([w], Words(t), Words(rest));
  }

  lemma WordsOfOne(w: string)
    requires IsWord(w)
    ensures Words(w) == [w] && Words(" " + w) == [w]
  {
    WordsOfWord(w, []);
    assert w + [] == w && [w] + [] == [w];
    assert (" " + w)[1..] == w;
  }

  lemma {:induction false} WordsOfJoin(ws: seq<string>)
    requires AreWords(ws)
    ensures Words(Join(ws)) == ws
  {
    if |ws| == 1 {
      WordsOfOne(ws[0]);
    } else if ws != [] {
      var init, last := ws[..|ws| - 1], ws[|ws| - 1];
      WordsOfJoin(init);
      WordsConcat(Join(init), " " + last);
      WordsOfOne(last);
      Regroup(Join(init), " ", last);
      assert ws == init + [last];
    }
  }

  /** Collapsing keeps the words, so collapsing twice is collapsing once. */
  lemma OneLineKeepsWords(text: string)
    ensures Words(OneLine(text)) == Words(text)
    ensures OneLine(OneLine(text)) == OneLine(text)
  {
    WordsOfJoin(Words(text));
  }

  lemma {:induction false} SplitNotEmpty(s: string)
    ensures |SplitAtSpaces(s)| > 0
  {
    if s != [] {
      SplitNotEmpty(s[..|s| - 1]);
    }
  }

  /** The pieces, the last one continued. */
  function Continued(cut: seq<string>, w: string): seq<string>
    requires cut != []
  {
    cut[..|cut| - 1] + [cut[|cut| - 1] + w]
  }

  lemma ContinuedTwice(cut: seq<string>, v: string, c: char)
    requires cut != []
    ensures Continued(Continued(cut, v), [c]) == Continued(cut, v + [c])
  {
    Regroup(cut[|cut| - 1], v, [c]);
  }

  lemma {:induction false} SplitAppend(s: string, w: string)
    requires forall i :: 0 <= i < |w| ==> w[i] != ' '
    ensures SplitAtSpaces(s) != [] && SplitAtSpaces(s + w) == Continued(SplitAtSpaces(s), w)
    decreases |w|
  {
    var cut := SplitAtSpaces(s);
    SplitNotEmpty(s);
    if w == [] {
      assert s + w == s && cut[|cut| - 1] + w == cut[|cut| - 1];
    } else {
      var n := |w| - 1;
      SplitAppend(s, w[..n]);
      assert (s + w)[..|s + w| - 1] == s + w[..n];
      ContinuedTwice(cut, w[..n], w[n]);
      assert w == w[..n] + [w[n]];
    }
  }

  lemma SplitSpace(s: string)
    ensures SplitAtSpaces(s + " ") == SplitAtSpaces(s) + [""]
  {
    assert (s + " ")[..|s|] == s;
  }

  /** Splitting the collapsed line at single spaces gives back its words. */
  lemma {:induction false} SplitOfJoin(ws: seq<string>)
    requires AreWords(ws)
    ensures SplitAtSpaces(Join(ws)) == if ws == [] then [""] else ws
  {
    if |ws| == 1 {
      NoSpaceInWord(ws[0]);
      SplitAppend("", ws[0]);
      assert "" + ws[0] == ws[0];
    } else if ws != [] {
      var init, last := ws[..|ws| - 1], ws[|ws| - 1];
      SplitOfJoin(init);
      SplitSpace(Join(init));
      NoSpaceInWord(last);
      SplitAppend(Join(init) + " ", last);
      assert (init + [""])[..|init|] == init && "" + last == last;
      assert ws == init + [last];
    }
  }

  lemma NoSpaceInWord(w: string)
    requires IsWord(w)
    ensures forall i :: 0 <= i < |w| ==> w[i] != ' '
  {
    assert IsSpace(' ');
  }

  // ---------------------------------------------------------------------------------------
  // Greedy wrapping
  // ---------------------------------------------------------------------------------------

  /** Width of the line that holds the group `g` behind a prefix of `p` characters. */
  function Width(p: nat, g: seq<string>): nat {
    p + |Join(g)|
  }

  predicate Fits(p: nat, g: seq<string>) {
    Width(p, g) <= MAX_WIDTH
  }

  /** A line may be too wide only if it holds a single word. */
  predicate Legal(p: nat, g: seq<string>) {
    |g| == 1 || (1 < |g| && Fits(p, g))
  }

  function Concat(gs: seq<seq<string>>): seq<string> {
    if gs == [] then [] else gs[0] + Concat(gs[1..])
  }

  /** `gs` divides `ws` into legal lines. */
  ghost predicate Splits(p: nat, gs: seq<seq<string>>, ws: seq<string>) {
    Concat(gs) == ws && forall i :: 0 <= i < |gs| ==> Legal(p, gs[i])
  }

  /** The lines produced from the current line `cur` and the words still to come. */
  function GreedyFrom(p: nat, cur: seq<string>, ws: seq<string>): seq<seq<string>>
    decreases |ws|
  {
    if ws == [] then [cur]
    else if Fits(p, cur + [ws[0]]) then GreedyFrom(p, cur + [ws[0]], ws[1..])
    else [cur] + GreedyFrom(p, [ws[0]], ws[1..])
  }

  function Greedy(p: nat, ws: seq<string>): seq<seq<string>> {
    if ws == [] then [] else GreedyFrom(p, [ws[0]], ws[1..])
  }

  lemma JoinAppend(g: seq<string>, w: string)
    ensures Join(g + [w]) == if g == [] then w else Join(g) + " " + w
  {
    assert (g + [w])[..|g|] == g;
  }

  /** Words in front only make a line wider. */
  lemma {:induction false} WidthOfTail(p: nat, x: seq<string>, c: seq<string>)
    requires c != []
    ensures Width(p, c) <= Width(p, x + c)
    decreases |c|
  {
    var init, last := c[..|c| - 1], c[|c| - 1];
    assert c == init + [last] && x + c == (x + init) + [last];
    JoinAppend(init, last);
    JoinAppend(x + init, last);
    if init != [] {
      WidthOfTail(p, x, init);
    }
  }

  /** Words at the end only make a line wider. */
  lemma {:induction false} WidthOfHead(p: nat, c: seq<string>, x: seq<string>)
    ensures Width(p, c) <= Width(p, c + x)
    decreases |x|
  {
    if x == [] {
      assert c + x == c;
    } else {
      var init, last := x[..|x| - 1], x[|x| - 1];
      WidthOfHead(p, c, init);
      assert c + x == (c + init) + [last];
      JoinAppend(c + init, last);
    }
  }

  lemma {:induction false} GreedyFromSplits(p: nat, cur: seq<string>, ws: seq<string>)
    requires Legal(p, cur)
    ensures Splits(p, GreedyFrom(p, cur, ws), cur + ws)
    ensures |GreedyFrom(p, cur, ws)| > 0
    decreases |ws|
  {
    if ws == [] {
      assert cur + ws == cur && Concat([cur]) == cur + Concat([]);
    } else if Fits(p, cur + [ws[0]]) {
      GreedyFromSplits(p, cur + [ws[0]], ws[1..]);
      assert cur + ws == (cur + [ws[0]]) + ws[1..];
    } else {
      var rest := GreedyFrom(p, [ws[0]], ws[1..]);
      GreedyFromSplits(p, [ws[0]], ws[1..]);
      assert ws == [ws[0]] + ws[1..];
      assert ([cur] + rest)[1..] == rest;
    }
  }

  /** Wrapping keeps exactly the word sequence, and every line is legal. */
  lemma GreedySplits(p: nat, ws: seq<string>)
    ensures Splits(p, Greedy(p, ws), ws)
  {
    if ws != [] {
      GreedyFromSplits(p, [ws[0]], ws[1..]);
      assert ws == [ws[0]] + ws[1..];
    }
  }

  /**
   A shorter current line never costs a line more, a longer one never more than one. Both are
   proved together over the words still to come.
   */
  lemma {:induction false} GreedyMonotone(p: nat, x: seq<string>, c: seq<string>, ws: seq<string>)
    requires c != []
    ensures |GreedyFrom(p, c, ws)| <= |GreedyFrom(p, x + c, ws)| <= 1 + |GreedyFrom(p, c, ws)|
    decreases |ws|
  {
    if ws != [] {
      var w, rest := ws[0], ws[1..];
      assert (x + c) + [w] == x + (c + [w]);
      WidthOfTail(p, x, c + [w]);
      if Fits(p, x + c + [w]) {
        GreedyMonotone(p, x, c + [w], rest);
      } else if Fits(p, c + [w]) {
        GreedyMonotone(p, c, [w], rest);
      }
    }
  }

  /** A group that fits is taken up whole. */
  lemma {:induction false} GreedyAbsorbs(p: nat, cur: seq<string>, g: seq<string>, ws: seq<string>)
    requires g == [] || Fits(p, cur + g)
    ensures GreedyFrom(p, cur, g + ws) == GreedyFrom(p, cur + g, ws)
    decreases |g|
  {
    if g == [] {
      assert g + ws == ws && cur + g == cur;
    } else {
      var g' := g[1..];
      assert (g + ws)[0] == g[0] && (g + ws)[1..] == g' + ws;
      assert cur + g == (cur + [g[0]]) + g';
      WidthOfHead(p, cur + [g[0]], g');
      GreedyAbsorbs(p, cur + [g[0]], g', ws);
    }
  }

  /** Main result: no legal division of the same words uses fewer lines. */
  lemma {:induction false} GreedyIsOptimal(p: nat, gs: seq<seq<string>>, ws: seq<string>)
    requires Splits(p, gs, ws)
    ensures |Greedy(p, ws)| <= |gs|
    decreases |gs|
  {
    if gs != [] {
      var g, rest := gs[0], Concat(gs[1..]);
      assert Legal(p, g);
      assert ws == [g[0]] + (g[1..] + rest) && ws[1..] == g[1..] + rest && g == [g[0]] + g[1..];
      GreedyAbsorbs(p, [g[0]], g[1..], rest);
      assert Splits(p, gs[1..], rest);
      GreedyIsOptimal(p, gs[1..], rest);
      if rest != [] {
        GreedyMonotone(p, g, [rest[0]], rest[1..]);
      }
    }
  }

  // ---------------------------------------------------------------------------------------
  // The lines
  // ---------------------------------------------------------------------------------------

  function Lines(prefix: string, gs: seq<seq<string>>): seq<string> {
    if gs == [] then [] else [prefix + Join(gs[0])] + Lines(prefix, gs[1..])
  }

  lemma {:induction false} LinesConcat(prefix: string, a: seq<seq<string>>, b: seq<seq<string>>)
    ensures Lines(prefix, a + b) == Lines(prefix, a) + Lines(prefix, b)
  {
    if a == [] {
      assert a + b == b;
    } else {
      assert (a + b)[1..] == a[1..] + b;
      LinesConcat(prefix, a[1..], b);
    }
  }

  /** The prefixes in use: some indentation, then `-- `. */
  ghost predicate IsPrefix(prefix: string) {
    exists indent :: AllSpace(indent) && prefix == indent + "-- "
  }

  lemma {:induction false} StripIndented(indent: string, t: string)
    requires AllSpace(indent)
    ensures Strip(indent + t) == Strip(t)
  {
    if indent == [] {
      assert indent + t == t;
    } else {
      assert (indent + t)[0] == indent[0] && (indent + t)[1..] == indent[1..] + t;
      StripIndented(indent[1..], t);
    }
  }

  lemma StripUntouched(t: string)
    requires t != [] && !IsSpace(t[0]) && !IsSpace(t[|t| - 1])
    ensures Strip(t) == t
  {
  }

  lemma StripDashes()
    ensures Strip("-- ") == "--"
  {
    assert "-- "[..2] == "--";
    StripUntouched("--");
  }

  lemma LastCharOfJoin(g: seq<string>)
    requires AreWords(g) && g != []
    ensures Join(g) != [] && !IsSpace(Join(g)[|Join(g)| - 1])
  {
    var last := g[|g| - 1];
    assert IsWord(last);
    JoinAppend(g[..|g| - 1], last);
    assert g == g[..|g| - 1] + [last];
    assert Join(g)[|Join(g)| - 1] == last[|last| - 1];
  }

  /** `current.strip() != "--"` tells a line with words from a bare prefix. */
  lemma BarePrefix(prefix: string, g: seq<string>)
    requires IsPrefix(prefix) && AreWords(g)
    ensures Strip(prefix + Join(g)) == "--" <==> g == []
  {
    var indent :| AllSpace(indent) && prefix == indent + "-- ";
    var t := "-- " + Join(g);
    assert prefix + Join(g) == indent + t;
    StripIndented(indent, t);
    if g == [] {
      assert t == "-- ";
      StripDashes();
    } else {
      LastCharOfJoin(g);
      assert t[|t| - 1] == Join(g)[|Join(g)| - 1];
      StripUntouched(t);
    }
  }

  /** What is on the page so far: the finished lines, and the current one. */
  ghost predicate Progress(p: nat, ws: seq<string>, i: nat, done: seq<seq<string>>, cur: seq<string>) {
    && i <= |ws| && AreWords(cur)
    && (i == 0 ==> cur == [] && done == [])
    && (0 < i ==> cur != [] && Greedy(p, ws) == done + GreedyFrom(p, cur, ws[i..]))
  }

  lemma ProgressStep(p: nat, ws: seq<string>, i: nat, done: seq<seq<string>>, cur: seq<string>)
    requires AreWords(ws) && i < |ws| && Progress(p, ws, i, done, cur)
    ensures cur == [] || Fits(p, cur + [ws[i]]) ==> Progress(p, ws, i + 1, done, cur + [ws[i]])
    ensures cur != [] && !Fits(p, cur + [ws[i]]) ==> Progress(p, ws, i + 1, done + [cur], [ws[i]])
  {
    assert IsWord(ws[i]);
    if cur == [] {
      assert i == 0 && [] + [ws[0]] == [ws[0]];
      assert Greedy(p, ws) == [] + GreedyFrom(p, [ws[0]], ws[1..]);
    } else {
      assert ws[i..][0] == ws[i] && ws[i..][1..] == ws[i + 1..];
      if !Fits(p, cur + [ws[i]]) {
        assert done + ([cur] + GreedyFrom(p, [ws[i]], ws[i + 1..])) == (done + [cur]) + GreedyFrom(p, [ws[i]], ws[i + 1..]);
      }
    }
  }

  lemma ProgressEnd(p: nat, ws: seq<string>, done: seq<seq<string>>, cur: seq<string>)
    requires Progress(p, ws, |ws|, done, cur)
    ensures Greedy(p, ws) == if cur == [] then [] else done + [cur]
  {
    assert ws[|ws|..] == [];
  }

  /** The candidate line is the current line with one more word. */
  lemma Candidate(prefix: string, cur: seq<string>, word: string)
    ensures prefix + Join(cur + [word]) == if cur == [] then prefix + word else prefix + Join(cur) + " " + word
  {
    JoinAppend(cur, word);
  }

  /** `_comment_block` */
  method CommentBlock(text: string, prefix: string) returns (lines: seq<string>)
    requires IsPrefix(prefix)
    ensures lines == Lines(prefix, Greedy(|prefix|, Words(text)))
  {
    ghost var ws := Words(text);
    SplitOfJoin(ws);
    ghost var done, cur;
    var current;
    lines, current, done, cur := AddWords(prefix, SplitAtSpaces(OneLine(text)), ws);
    ProgressEnd(|prefix|, ws, done, cur);
    BarePrefix(prefix, cur);
    LinesConcat(prefix, done, [cur]);
    assert Lines(prefix, [cur]) == [current];
    if Strip(current) != "--" {
      lines := lines + [current];
    }
  }

  /** Its loop. A description without words is split into one empty piece. */
  method AddWords(prefix: string, words: seq<string>, ghost ws: seq<string>)
    returns (lines: seq<string>, current: string, ghost done: seq<seq<string>>, ghost cur: seq<string>)
    requires IsPrefix(prefix) && AreWords(ws) && words == if ws == [] then [""] else ws
    ensures Progress(|prefix|, ws, |ws|, done, cur)
    ensures current == prefix + Join(cur) && lines == Lines(prefix, done)
  {
    lines, current, done, cur := [], prefix, [], [];
    assert prefix + Join(cur) == prefix;
    for i := 0 to |words|
      invariant Progress(|prefix|, ws, if ws == [] then 0 else i, done, cur)
      invariant current == prefix + Join(cur) && lines == Lines(prefix, done)
    {
      if ws != [] {
        ProgressStep(|prefix|, ws, i, done, cur);
      }
      lines, current, done, cur := AddWord(prefix, words[i], lines, current, done, cur);
      if ws == [] {
        assert Join(cur) == "" && Join([]) == "";
        cur := [];
      }
    }
  }

  /** One turn of its loop: the word joins the current line if it fits, or starts the next one. */
  method AddWord(prefix: string, word: string, lines: seq<string>, current: string, ghost done: seq<seq<string>>, ghost cur: seq<string>)
    returns (lines': seq<string>, current': string, ghost done': seq<seq<string>>, ghost cur': seq<string>)
    requires IsPrefix(prefix) && AreWords(cur)
    requires current == prefix + Join(cur) && lines == Lines(prefix, done)
    ensures current' == prefix + Join(cur') && lines' == Lines(prefix, done')
    ensures (done', cur') == if cur == [] || Fits(|prefix|, cur + [word]) then (done, cur + [word]) else (done + [cur], [word])
  {
    BarePrefix(prefix, cur);
    Candidate(prefix, cur, word);
    var candidate := if Strip(current) != "--" then current + " " + word else prefix + word;
    if |candidate| > MAX_WIDTH && Strip(current) != "--" {
      LinesConcat(prefix, done, [cur]);
      assert Lines(prefix, [cur]) == [current];
      lines', current', done', cur' := lines + [current], prefix + word, done + [cur], [word];
    } else {
      lines', current', done', cur' := lines, candidate, done, cur + [word];
    }
  }

  /** Reading the comment lines back gives the words of the description, in order. */
  lemma {:induction false} LinesKeepWords(prefix: string, gs: seq<seq<string>>, i: nat)
    requires i < |gs| && forall j :: 0 <= j < |gs| ==> AreWords(gs[j])
    ensures |Lines(prefix, gs)| == |gs|
    ensures |prefix| <= |Lines(prefix, gs)[i]| == Width(|prefix|, gs[i])
    ensures Words(Lines(prefix, gs)[i][|prefix|..]) == gs[i]
  {
    LinesLength(prefix, gs);
    if i == 0 {
      assert (prefix + Join(gs[0]))[|prefix|..] == Join(gs[0]);
      WordsOfJoin(gs[0]);
    } else {
      LinesKeepWords(prefix, gs[1..], i - 1);
    }
  }

  lemma {:induction false} LinesLength(prefix: string, gs: seq<seq<string>>)
    ensures |Lines(prefix, gs)| == |gs|
  {
    if gs != [] {
      LinesLength(prefix, gs[1..]);
    }
  }

  lemma {:induction false} GroupsAreWords(gs: seq<seq<string>>)
    requires AreWords(Concat(gs))
    ensures forall j :: 0 <= j < |gs| ==> AreWords(gs[j])
  {
    if gs != [] {
      var whole, rest := Concat(gs), Concat(gs[1..]);
      assert forall k :: 0 <= k < |gs[0]| ==> whole[k] == gs[0][k];
      assert forall k :: 0 <= k < |rest| ==> whole[|gs[0]| + k] == rest[k];
      GroupsAreWords(gs[1..]);
      assert forall j :: 0 < j < |gs| ==> gs[j] == gs[1..][j - 1];
    }
  }

  /**
   The whole block: its lines, read back one after the other, hold the words of the description
   in order; a line wider than 78 holds one word only; and no other legal layout is shorter.
   */
  lemma CommentBlockIsFaithful(text: string, prefix: string, other: seq<seq<string>>)
    requires Splits(|prefix|, other, Words(text))
    ensures
      var gs := Greedy(|prefix|, Words(text));
      var lines := Lines(prefix, gs);
      && Concat(gs) == Words(text)
      && |lines| == |gs| <= |other|
      && forall i :: 0 <= i < |lines| ==>
           && |prefix| <= |lines[i]| && Words(lines[i][|prefix|..]) == gs[i]
           && (|lines[i]| <= MAX_WIDTH || |gs[i]| == 1)
  {
    var gs := Greedy(|prefix|, Words(text));
    var lines := Lines(prefix, gs);
    GreedySplits(|prefix|, Words(text));
    GroupsAreWords(gs);
    GreedyIsOptimal(|prefix|, other, Words(text));
    LinesLength(prefix, gs);
    forall i | 0 <= i < |lines|
      ensures |prefix| <= |lines[i]| && Words(lines[i][|prefix|..]) == gs[i]
      ensures |lines[i]| <= MAX_WIDTH || |gs[i]| == 1
    {
      LinesKeepWords(prefix, gs, i);
      assert Legal(|prefix|, gs[i]);
    }
  }

  // ---------------------------------------------------------------------------------------
  // SQL literals
  // ---------------------------------------------------------------------------------------

  /** `.replace("'", "''")` */
  function DoubleQuotes(s: string): string {
    if s == [] then [] else (if s[0] == '\'' then "''" else [s[0]]) + DoubleQuotes(s[1..])
  }

  function SqlLiteral(text: string): string {
    "'" + DoubleQuotes(OneLine(text)) + "'"
  }

  /** The body of a literal: two quotes stand for one, a single quote ends it. */
  function ReadBody(s: string): Option<(string, string)> {
    if s == [] then None
    else if s[0] != '\'' then
      var r := ReadBody(s[1..]);
      if r.None? then None else Some(([s[0]] + r.value.0, r.value.1))
    else if |s| > 1 && s[1] == '\'' then
      var r := ReadBody(s[2..]);
      if r.None? then None else Some((['\''] + r.value.0, r.value.1))
    else Some(([], s[1..]))
  }

  /** How PostgreSQL reads a string literal; what follows it is returned too. */
  function ReadLiteral(s: string): Option<(string, string)> {
    if s != [] && s[0] == '\'' then ReadBody(s[1..]) else None
  }

  lemma {:induction false} ReadBodyOfDoubled(s: string, tail: string)
    requires tail == [] || tail[0] != '\''
    ensures ReadBody(DoubleQuotes(s) + ("'" + tail)) == Some((s, tail))
  {
    var r := DoubleQuotes(s) + ("'" + tail);
    if s == [] {
      assert r == "'" + tail && r[1..] == tail;
    } else {
      var rest := DoubleQuotes(s[1..]) + ("'" + tail);
      ReadBodyOfDoubled(s[1..], tail);
      if s[0] == '\'' {
        assert r == "''" + rest && r[2..] == rest;
      } else {
        assert r == [s[0]] + rest && r[1..] == rest;
      }
      assert [s[0]] + s[1..] == s;
    }
  }

  /** The statement `COMMENT ... IS <literal>;` carries exactly the collapsed description. */
  lemma LiteralRoundTrip(text: string, tail: string)
    requires tail == [] || tail[0] != '\''
    ensures ReadLiteral(SqlLiteral(text) + tail) == Some((OneLine(text), tail))
  {
    var s := SqlLiteral(text) + tail;
    assert s[1..] == DoubleQuotes(OneLine(text)) + ("'" + tail);
    ReadBodyOfDoubled(OneLine(text), tail);
  }
}
