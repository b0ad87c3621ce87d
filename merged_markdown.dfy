/**
 * The merge file: `parseMergedMarkdown` folds the file's lines into a map from
 * heading text to the trimmed lines that follow it, and `resolveMergedMarkdown`
 * decides which file is read (lib/index.js).
 */
module MergedMarkdown {
  import opened JsStrings
  import opened JsValues

  /** The number of leading `#` characters. */
  function HashRun(s: string): (n: nat)
    ensures n <= |s| && (forall i :: 0 <= i < n ==> s[i] == '#') && (n == |s| || s[n] != '#')
  {
    if s != [] && s[0] == '#' then 1 + HashRun(s[1..]) else 0
  }

  /** The number of leading whitespace characters (`\s*`, taken greedily). */
  function SpaceRun(s: string): (n: nat)
    ensures n <= |s| && (forall i :: 0 <= i < n ==> IsSpace(s[i])) && (n == |s| || !IsSpace(s[n]))
  {
    if s != [] && IsSpace(s[0]) then 1 + SpaceRun(s[1..]) else 0
  }

  /** The number of leading characters `.` matches (`.*`, taken greedily). */
  function TextRun(s: string): (n: nat)
    ensures n <= |s| && (forall i :: 0 <= i < n ==> !IsLineTerminator(s[i]))
    ensures n == |s| || IsLineTerminator(s[n])
  {
    if s != [] && !IsLineTerminator(s[0]) then 1 + TextRun(s[1..]) else 0
  }

  /** The capture group of `/^#+\s+(.*)/` on `line`, or `None` when the line does not match. */
  function HeadingOf(line: string): Option<string> {
    var n := HashRun(line);
    if n == 0 || n == |line| || !IsSpace(line[n]) then None
    else
      var j := n + SpaceRun(line[n..]);
      Some(line[j..j + TextRun(line[j..])])
  }

  /** `/^#+\s+(.*)/` matches `line` with `n` hashes, `w` whitespace characters and capture `h`,
      each repetition as long as it can be. */
  predicate HeadingMatch(line: string, n: nat, w: nat, h: string) {
    1 <= n && 1 <= w && n + w + |h| <= |line| &&
    (forall i :: 0 <= i < n ==> line[i] == '#') &&
    (forall i :: n <= i < n + w ==> IsSpace(line[i])) &&
    (n + w == |line| || !IsSpace(line[n + w])) &&
    line[n + w..n + w + |h|] == h &&
    (forall i :: 0 <= i < |h| ==> !IsLineTerminator(h[i])) &&
    (n + w + |h| == |line| || IsLineTerminator(line[n + w + |h|]))
  }

  lemma {:induction false} HeadingOfMatches(line: string)
    requires HeadingOf(line).Some?
    ensures HeadingMatch(line, HashRun(line), SpaceRun(line[HashRun(line)..]), HeadingOf(line).value)
  {
    var n := HashRun(line);
    var rest := line[n..];
    var w := SpaceRun(rest);
    var j := n + w;
    var text := line[j..];
    var t := TextRun(text);
    var h := line[j..j + t];
    assert HeadingOf(line) == Some(h);
    assert rest[0] == line[n];
    SpacesOfSuffix(line, n, w);
    assert j == |line| || !IsSpace(line[j]) by {
      if j < |line| { assert rest[w] == line[j]; }
    }
    forall i | 0 <= i < |h| ensures !IsLineTerminator(h[i]) {
      assert text[i] == h[i];
    }
    assert j + t == |line| || IsLineTerminator(line[j + t]) by {
      if j + t < |line| { assert text[t] == line[j + t]; }
    }
  }

  lemma {:induction false} SpacesOfSuffix(line: string, n: nat, w: nat)
    requires n + w <= |line| && forall i :: 0 <= i < w ==> IsSpace(line[n..][i])
    ensures forall i :: n <= i < n + w ==> IsSpace(line[i])
  {
    forall i | n <= i < n + w ensures IsSpace(line[i]) {
      assert line[n..][i - n] == line[i];
    }
  }

  lemma {:induction false} HashRunIs(s: string, n: nat)
    requires n <= |s| && (forall i :: 0 <= i < n ==> s[i] == '#') && (n == |s| || s[n] != '#')
    ensures HashRun(s) == n
    decreases n
  {
    if n > 0 {
      HashRunIs(s[1..], n - 1);
    }
  }

  lemma {:induction false} SpaceRunIs(s: string, n: nat)
    requires n <= |s| && (forall i :: 0 <= i < n ==> IsSpace(s[i])) && (n == |s| || !IsSpace(s[n]))
    ensures SpaceRun(s) == n
    decreases n
  {
    if n > 0 {
      SpaceRunIs(s[1..], n - 1);
    }
  }

  lemma {:induction false} TextRunIs(s: string, n: nat)
    requires n <= |s| && (forall i :: 0 <= i < n ==> !IsLineTerminator(s[i]))
    requires n == |s| || IsLineTerminator(s[n])
    ensures TextRun(s) == n
    decreases n
  {
    if n > 0 {
      TextRunIs(s[1..], n - 1);
    }
  }

  /** Runs that satisfy the greedy match are the ones `HeadingOf` counts. */
  lemma {:induction false} MatchedRuns(line: string, n: nat, w: nat, h: string)
    requires HeadingMatch(line, n, w, h)
    ensures n == HashRun(line)
    ensures w == SpaceRun(line[n..])
    ensures |h| == TextRun(line[n + w..])
  {
    HashRunIs(line, n);
    var rest := line[n..];
    forall i | 0 <= i < w ensures IsSpace(rest[i]) {
      assert rest[i] == line[n + i];
    }
    if n + w < |line| {
      assert rest[w] == line[n + w];
    }
    SpaceRunIs(rest, w);
    var text := line[n + w..];
    forall i | 0 <= i < |h| ensures !IsLineTerminator(text[i]) {
      assert text[i] == h[i];
    }
    if n + w + |h| < |line| {
      assert text[|h|] == line[n + w + |h|];
    }
    TextRunIs(text, |h|);
  }

  lemma {:induction false} MatchIsHeading(line: string, n: nat, w: nat, h: string)
    requires HeadingMatch(line, n, w, h)
    ensures HeadingOf(line) == Some(h)
  {
    MatchedRuns(line, n, w, h);
    assert line[n] == line[n..][0];
  }

  /** `HeadingOf` is the regular expression's greedy match, in both directions. */
  lemma {:induction false} HeadingOfIsGreedyMatch(line: string, h: string)
    ensures HeadingOf(line) == Some(h) <==> exists n: nat, w: nat :: HeadingMatch(line, n, w, h)
  {
    if HeadingOf(line) == Some(h) {
      HeadingOfMatches(line);
    }
    if exists n: nat, w: nat :: HeadingMatch(line, n, w, h) {
      var n: nat, w: nat :| HeadingMatch(line, n, w, h);
      MatchIsHeading(line, n, w, h);
    }
  }

  /** The parser's state: the current heading (`''` when there is none) and the map built so far. */
  datatype ParseState = ParseState(key: string, memo: map<string, string>)

  const Start := ParseState("", map[])

  /** The entry of a map, or `None`. */
  function Entry(m: map<string, string>, k: string): Option<string> {
    if k in m then Some(m[k]) else None
  }

  /** A bucket after one more trimmed line: an absent or empty (falsy) bucket is replaced. */
  function Append(bucket: Option<string>, line: string): string {
    if bucket.None? || bucket.value == "" then line else bucket.value + "\n" + line
  }

  /** One step of the fold over the file's lines. */
  function Step(st: ParseState, line: string): ParseState {
    match HeadingOf(line)
    case Some(h) => ParseState(Trim(h), st.memo)
    case None =>
      if st.key == "" then st
      else ParseState(st.key, st.memo[st.key := Append(Entry(st.memo, st.key), Trim(line))])
  }

  function Fold(st: ParseState, lines: seq<string>): ParseState
    decreases |lines|
  {
    if lines == [] then st else Fold(Step(st, lines[0]), lines[1..])
  }

  /** The map `parseMergedMarkdown` returns. */
  function Parse(md: string): map<string, string> {
    if md == "" then map[] else Fold(Start, Split(md, '\n')).memo
  }

  /** The parser as the source runs it: a loop that updates the current key and the map. */
  method ParseMergedMarkdown(md: string) returns (memo: map<string, string>)
    ensures memo == Parse(md)
  {
    if md == "" {
      return map[];
    }
    var lines := Split(md, '\n');
    var currentKey := "";
    memo := map[];
    var i := 0;
    assert lines[0..] == lines;
    while i < |lines|
      invariant 0 <= i <= |lines|
      invariant Fold(ParseState(currentKey, memo), lines[i..]) == Fold(Start, lines)
    {
      assert lines[i..][1..] == lines[i + 1..];
      var line := lines[i];
      var matched := HeadingOf(line);
      if matched.Some? {
        currentKey := Trim(matched.value);
      } else if currentKey != "" {
        line := Trim(line);
        if currentKey !in memo || memo[currentKey] == "" {
          memo := memo[currentKey := line];
        } else {
          memo := memo[currentKey := memo[currentKey] + "\n" + line];
        }
      }
      i := i + 1;
    }
  }

  // ---------------------------------------------------------------------------------------------
  // What ends up under each heading.

  /** The current heading after `line`. */
  function NextKey(cur: string, line: string): string {
    match HeadingOf(line)
    case Some(c) => Trim(c)
    case None => cur
  }

  /** What `line` contributes to heading `h` while `cur` is the current heading. */
  function Own(cur: string, line: string, h: string): seq<string> {
    if HeadingOf(line).None? && cur != "" && cur == h then [Trim(line)] else []
  }

  /** The trimmed non-heading lines that fall under heading `h`, starting with current heading `cur`. */
  function Governed(cur: string, lines: seq<string>, h: string): seq<string>
    decreases |lines|
  {
    if lines == [] then [] else Own(cur, lines[0], h) + Governed(NextKey(cur, lines[0]), lines[1..], h)
  }

  /** A bucket after a run of lines. */
  function Accumulate(bucket: Option<string>, ts: seq<string>): Option<string>
    decreases |ts|
  {
    if ts == [] then bucket else Accumulate(Some(Append(bucket, ts[0])), ts[1..])
  }

  /** The lines without their leading empty ones. */
  function DropLeadingEmpty(ts: seq<string>): (r: seq<string>)
    ensures |r| <= |ts| && r == ts[|ts| - |r|..]
    ensures forall i :: 0 <= i < |ts| - |r| ==> ts[i] == ""
    ensures r == [] || r[0] != ""
  {
    if ts != [] && ts[0] == "" then DropLeadingEmpty(ts[1..]) else ts
  }

  /** One step of the fold, seen from one heading's bucket. */
  lemma {:induction false} StepBucket(st: ParseState, line: string, h: string)
    ensures Step(st, line).key == NextKey(st.key, line)
    ensures Entry(Step(st, line).memo, h) == Accumulate(Entry(st.memo, h), Own(st.key, line, h))
  {
    var own := Own(st.key, line, h);
    if own != [] {
      assert own[1..] == [];
    }
  }

  /** Each heading's bucket after the fold is its bucket before, extended by the lines under it. */
  lemma {:induction false} FoldBucket(st: ParseState, lines: seq<string>, h: string)
    ensures Entry(Fold(st, lines).memo, h) == Accumulate(Entry(st.memo, h), Governed(st.key, lines, h))
    decreases |lines|
  {
    if lines != [] {
      var st' := Step(st, lines[0]);
      FoldBucket(st', lines[1..], h);
      StepBucket(st, lines[0], h);
      AccumulateConcat(Entry(st.memo, h), Own(st.key, lines[0], h), Governed(st'.key, lines[1..], h));
    }
  }

  /** Accumulating two runs one after the other. */
  lemma {:induction false} AccumulateConcat(b: Option<string>, p: seq<string>, q: seq<string>)
    ensures Accumulate(b, p + q) == Accumulate(Accumulate(b, p), q)
    decreases |p|
  {
    if p == [] {
      assert p + q == q;
    } else {
      assert (p + q)[1..] == p[1..] + q;
      AccumulateConcat(Some(Append(b, p[0])), p[1..], q);
    }
  }

  /** A non-empty bucket keeps growing by newline-joined lines. */
  lemma {:induction false} AccumulateOnto(b: string, ts: seq<string>)
    requires b != ""
    ensures Accumulate(Some(b), ts) == Some(JoinWith([b] + ts, "\n"))
    decreases |ts|
  {
    if ts == [] {
      assert [b] + ts == [b];
    } else {
      var t, r := ts[0], ts[1..];
      AccumulateOnto(b + "\n" + t, r);
      assert [b] + ts == [b] + ([t] + r);
      JoinCons(b, [t] + r, "\n");
      if r == [] {
        assert [b + "\n" + t] + r == [b + "\n" + t];
        assert [t] + r == [t];
      } else {
        JoinCons(b + "\n" + t, r, "\n");
        JoinCons(t, r, "\n");
        calc {
          JoinWith([b] + ts, "\n");
          b + "\n" + JoinWith([t] + r, "\n");
          b + "\n" + (t + "\n" + JoinWith(r, "\n"));
          (b + "\n" + t) + "\n" + JoinWith(r, "\n");
          JoinWith([b + "\n" + t] + r, "\n");
        }
      }
    }
  }

  /** An empty bucket behaves like an absent one: leading empty lines are overwritten. */
  lemma {:induction false} AccumulateFromEmpty(ts: seq<string>)
    ensures Accumulate(Some(""), ts) == Some(JoinWith(DropLeadingEmpty(ts), "\n"))
    decreases |ts|
  {
    if ts != [] {
      if ts[0] == "" {
        AccumulateFromEmpty(ts[1..]);
      } else {
        AccumulateOnto(ts[0], ts[1..]);
        assert [ts[0]] + ts[1..] == ts;
      }
    }
  }

  /** A bucket created by a run of lines is those lines, leading empty ones dropped, joined by newlines. */
  lemma {:induction false} AccumulateFresh(ts: seq<string>)
    ensures Accumulate(None, ts) == if ts == [] then None else Some(JoinWith(DropLeadingEmpty(ts), "\n"))
  {
    if ts != [] {
      assert Accumulate(None, ts) == Accumulate(Some(ts[0]), ts[1..]);
      assert Accumulate(Some(""), ts) == Accumulate(Some(ts[0]), ts[1..]);
      AccumulateFromEmpty(ts);
    }
  }

  /** The parsed map in full: a heading has an entry exactly when some non-heading line falls under it,
      and the entry is those lines, trimmed, with leading empty ones dropped, joined by newlines.
      Empty input has no lines under any heading, so its map is empty. */
  lemma {:induction false} ParseBodies(md: string, h: string)
    ensures var g := Governed("", Split(md, '\n'), h);
      (h in Parse(md) <==> g != []) &&
      (h in Parse(md) ==> Parse(md)[h] == JoinWith(DropLeadingEmpty(g), "\n"))
  {
    var lines := Split(md, '\n');
    if md == "" {
      assert lines == [""];
      assert HeadingOf("") == None;
      assert Governed("", lines, h) == Governed("", [], h);
    } else {
      FoldBucket(Start, lines, h);
      AccumulateFresh(Governed("", lines, h));
    }
  }

  // ---------------------------------------------------------------------------------------------
  // The shape of the map.

  /** Keys are non-empty and trimmed; bodies are empty or start with a visible character. */
  predicate WellFormed(st: ParseState) {
    Trim(st.key) == st.key &&
    forall k :: k in st.memo ==>
      k != "" && Trim(k) == k && (st.memo[k] == "" || !IsSpace(st.memo[k][0]))
  }

  lemma {:induction false} TrimStartsVisibly(s: string)
    ensures Trim(s) == "" || !IsSpace(Trim(s)[0])
  {
    TrimIsInnerPiece(s);
  }

  lemma {:induction false} StepWellFormed(st: ParseState, line: string)
    requires WellFormed(st)
    ensures WellFormed(Step(st, line))
  {
    match HeadingOf(line)
    case Some(c) =>
      TrimIdempotent(c);
    case None =>
      if st.key != "" {
        var t := Trim(line);
        TrimStartsVisibly(line);
        var body := Append(Entry(st.memo, st.key), t);
        assert body == "" || !IsSpace(body[0]);
        assert Step(st, line) == ParseState(st.key, st.memo[st.key := body]);
      }
  }

  lemma {:induction false} FoldWellFormed(st: ParseState, lines: seq<string>)
    requires WellFormed(st)
    ensures WellFormed(Fold(st, lines))
    decreases |lines|
  {
    if lines != [] {
      StepWellFormed(st, lines[0]);
      FoldWellFormed(Step(st, lines[0]), lines[1..]);
    }
  }

  /** Every key of the parsed map is non-empty and trimmed, and every body is empty or starts
      with a non-whitespace character. */
  lemma {:induction false} ParseWellFormed(md: string)
    ensures forall k :: k in Parse(md) ==>
      k != "" && Trim(k) == k && (Parse(md)[k] == "" || !IsSpace(Parse(md)[k][0]))
  {
    if md != "" {
      FoldWellFormed(Start, Split(md, '\n'));
    }
  }

  /** None of the lines is a heading. */
  predicate NoHeadings(lines: seq<string>)
    decreases |lines|
  {
    lines == [] || (HeadingOf(lines[0]).None? && NoHeadings(lines[1..]))
  }

  /** While there is no current heading, non-heading lines change nothing: lines before the first
      heading are discarded. */
  lemma {:induction false} NoKeyDiscards(m: map<string, string>, pre: seq<string>, rest: seq<string>)
    requires NoHeadings(pre)
    ensures Fold(ParseState("", m), pre + rest) == Fold(ParseState("", m), rest)
    decreases |pre|
  {
    if pre != [] {
      assert (pre + rest)[1..] == pre[1..] + rest;
      NoKeyDiscards(m, pre[1..], rest);
    } else {
      assert pre + rest == rest;
    }
  }

  /** A merge file without any heading line gives the empty map, as an empty file does. */
  lemma {:induction false} WithoutHeadingsEmpty(md: string)
    requires NoHeadings(Split(md, '\n'))
    ensures Parse(md) == map[]
  {
    if md != "" {
      var lines := Split(md, '\n');
      assert lines + [] == lines;
      NoKeyDiscards(map[], lines, []);
    }
  }

  /** A heading whose text trims to `''` discards the lines after it, up to the next heading. */
  lemma {:induction false} BlankHeadingDiscards(st: ParseState, heading: string, pre: seq<string>, rest: seq<string>)
    requires HeadingOf(heading).Some? && Trim(HeadingOf(heading).value) == ""
    requires NoHeadings(pre)
    ensures Fold(st, [heading] + pre + rest) == Fold(ParseState("", st.memo), rest)
  {
    ConcatAssoc([heading], pre, rest);
    FoldCons(st, heading, pre + rest);
    HeadingAddsNothing(st, heading);
    NoKeyDiscards(st.memo, pre, rest);
  }

  lemma {:induction false} ConcatAssoc<T>(a: seq<T>, b: seq<T>, c: seq<T>)
    ensures a + b + c == a + (b + c)
  {
  }

  lemma {:induction false} FoldCons(st: ParseState, line: string, lines: seq<string>)
    ensures Fold(st, [line] + lines) == Fold(Step(st, line), lines)
  {
    assert ([line] + lines)[1..] == lines;
  }

  /** A heading line sets the current key and adds to no body. */
  lemma {:induction false} HeadingAddsNothing(st: ParseState, line: string)
    requires HeadingOf(line).Some?
    ensures Step(st, line) == ParseState(Trim(HeadingOf(line).value), st.memo)
  {
  }

  /** A heading seen again appends to the bucket it already has. */
  lemma {:induction false} RepeatedHeadingAppends(st: ParseState, heading: string, line: string)
    requires HeadingOf(heading).Some?
    requires var h := Trim(HeadingOf(heading).value); h != "" && h in st.memo && st.memo[h] != ""
    requires HeadingOf(line).None?
    ensures var h := Trim(HeadingOf(heading).value);
      Fold(st, [heading, line]).memo == st.memo[h := st.memo[h] + "\n" + Trim(line)]
  {
    var h := Trim(HeadingOf(heading).value);
    var st1 := Step(st, heading);
    assert st1 == ParseState(h, st.memo);
    var st2 := Step(st1, line);
    assert st2 == ParseState(h, st.memo[h := st.memo[h] + "\n" + Trim(line)]);
    assert [heading, line][1..] == [line];
    assert [line][1..] == [];
    assert Fold(st, [heading, line]) == Fold(st1, [line]);
    assert Fold(st1, [line]) == Fold(st2, []);
  }

  // ---------------------------------------------------------------------------------------------
  // Headings written by the renderer are found again.

  /** A property key that a `## ` heading reproduces exactly. */
  predicate IsHeadingKey(key: string) {
    key != "" && Trim(key) == key && forall i :: 0 <= i < |key| ==> !IsLineTerminator(key[i])
  }

  lemma {:induction false} HeadingOfRendered(key: string)
    requires IsHeadingKey(key)
    ensures HeadingOf("## " + key) == Some(key)
  {
    var line := "## " + key;
    TrimStartsVisibly(key);
    assert !IsSpace(key[0]);
    assert line[3..] == key;
    assert forall i :: 0 <= i < 2 ==> line[i] == '#';
    assert forall i :: 2 <= i < 3 ==> IsSpace(line[i]);
    assert line[3..3 + |key|] == key;
    assert HeadingMatch(line, 2, 1, key);
    HeadingOfIsGreedyMatch(line, key);
  }

  lemma {:induction false} AccumulateSome(b: Option<string>, ts: seq<string>)
    requires ts != []
    ensures Accumulate(b, ts).Some?
    decreases |ts|
  {
    if |ts| > 1 {
      AccumulateSome(Some(Append(b, ts[0])), ts[1..]);
    }
  }

  lemma {:induction false} GovernedHasLine(cur: string, lines: seq<string>, i: nat, h: string)
    requires i + 1 < |lines| && h != ""
    requires HeadingOf(lines[i]).Some? && Trim(HeadingOf(lines[i]).value) == h
    requires HeadingOf(lines[i + 1]).None?
    ensures Governed(cur, lines, h) != []
    decreases i
  {
    var rest := lines[1..];
    assert Governed(cur, lines, h) == Own(cur, lines[0], h) + Governed(NextKey(cur, lines[0]), rest, h);
    if i == 0 {
      assert NextKey(cur, lines[0]) == h;
      assert rest[0] == lines[1];
      assert Governed(h, rest, h) == Own(h, rest[0], h) + Governed(NextKey(h, rest[0]), rest[1..], h);
      assert Own(h, rest[0], h) == [Trim(lines[1])];
    } else {
      assert rest[i - 1] == lines[i] && rest[i] == lines[i + 1];
      GovernedHasLine(NextKey(cur, lines[0]), rest, i - 1, h);
    }
  }

  /** A `## key` line followed by an empty line, anywhere after the first line, makes `key` a heading
      of the parsed map. */
  lemma {:induction false} KeyRecovered(before: string, key: string, after: string)
    requires IsHeadingKey(key)
    ensures key in Parse(before + "\n## " + key + "\n\n" + after)
  {
    var md := before + "\n## " + key + "\n\n" + after;
    var head := "## " + key;
    assert '\n' !in head by {
      forall i | 0 <= i < |head| ensures head[i] != '\n' {
        if i >= 3 { assert head[i] == key[i - 3]; }
      }
    }
    assert md == before + ['\n'] + head + ['\n'] + ("\n" + after);
    SplitFramed(before, head, "\n" + after, '\n');
    assert "\n" + after == "" + ['\n'] + after;
    SplitAt("", after, '\n');
    var pre := Split(before, '\n');
    var lines := pre + [head] + ([""] + Split(after, '\n'));
    assert Split(md, '\n') == lines;
    var i := |pre|;
    assert lines[i] == head && lines[i + 1] == "";
    HeadingOfRendered(key);
    assert HeadingOf("") == None;
    GovernedHasLine("", lines, i, key);
    FoldBucket(Start, lines, key);
    AccumulateSome(None, Governed("", lines, key));
  }

  // ---------------------------------------------------------------------------------------------
  // What re-reading a generated document gives under a heading.

  /** No line is a heading whose text trims to `h`. */
  predicate NoHeadingFor(lines: seq<string>, h: string) {
    forall i :: 0 <= i < |lines| ==> HeadingOf(lines[i]).None? || Trim(HeadingOf(lines[i]).value) != h
  }

  /** Each line, trimmed. */
  function TrimLines(lines: seq<string>): (r: seq<string>)
    ensures |r| == |lines| && forall i :: 0 <= i < |lines| ==> r[i] == Trim(lines[i])
  {
    if lines == [] then [] else [Trim(lines[0])] + TrimLines(lines[1..])
  }

  /** Every line that starts with `## ` is a heading line. */
  lemma {:induction false} HashHashSpaceIsHeading(line: string)
    requires |line| >= 3 && line[..3] == "## "
    ensures HeadingOf(line).Some?
  {
    assert line[0] == '#' && line[1] == '#' && line[2] == ' ';
    assert line[1..][1..][..1] == " ";
  }

  lemma {:induction false} NoHeadingsAll(lines: seq<string>)
    ensures NoHeadings(lines) <==> forall i :: 0 <= i < |lines| ==> HeadingOf(lines[i]).None?
    decreases |lines|
  {
    if lines != [] {
      NoHeadingsAll(lines[1..]);
      assert forall i :: 1 <= i < |lines| ==> lines[i] == lines[1..][i - 1];
    }
  }

  /** While the current heading is not `h`, lines that do not head `h` give `h` nothing up to
      a heading line, after which the current heading no longer matters. */
  lemma {:induction false} GovernedSkip(cur: string, pre: seq<string>, rest: seq<string>, h: string)
    requires cur != h && NoHeadingFor(pre, h)
    requires rest != [] && HeadingOf(rest[0]).Some?
    ensures Governed(cur, pre + rest, h) == Governed(cur, rest, h)
    decreases |pre|
  {
    if pre == [] {
      assert pre + rest == rest;
    } else {
      var next := NextKey(cur, pre[0]);
      assert (pre + rest)[0] == pre[0] && (pre + rest)[1..] == pre[1..] + rest;
      assert next != h;
      assert Own(cur, pre[0], h) == [];
      forall i | 0 <= i < |pre[1..]|
        ensures HeadingOf(pre[1..][i]).None? || Trim(HeadingOf(pre[1..][i]).value) != h
      {
        assert pre[1..][i] == pre[i + 1];
      }
      GovernedSkip(next, pre[1..], rest, h);
    }
  }

  /** Under the current heading `h`, every non-heading line goes to `h`, trimmed. */
  lemma {:induction false} GovernedRun(h: string, lines: seq<string>, rest: seq<string>)
    requires h != "" && NoHeadings(lines)
    ensures Governed(h, lines + rest, h) == TrimLines(lines) + Governed(h, rest, h)
    decreases |lines|
  {
    if lines == [] {
      assert lines + rest == rest;
    } else {
      assert (lines + rest)[0] == lines[0] && (lines + rest)[1..] == lines[1..] + rest;
      GovernedRun(h, lines[1..], rest);
    }
  }

  /** Lines that start with a heading other than `h`, and never head `h`, give `h` nothing. */
  lemma {:induction false} GovernedElsewhere(cur: string, lines: seq<string>, h: string)
    requires cur != h && NoHeadingFor(lines, h)
    ensures Governed(cur, lines, h) == []
    decreases |lines|
  {
    if lines != [] {
      assert NextKey(cur, lines[0]) != h;
      forall i | 0 <= i < |lines[1..]|
        ensures HeadingOf(lines[1..][i]).None? || Trim(HeadingOf(lines[1..][i]).value) != h
      {
        assert lines[1..][i] == lines[i + 1];
      }
      GovernedElsewhere(NextKey(cur, lines[0]), lines[1..], h);
    }
  }

  /** The lines of a body followed by nothing or by a newline and more lines. */
  lemma {:induction false} SplitTail(body: string, after: string)
    requires after == "" || after[0] == '\n'
    ensures Split(body + after, '\n') ==
      Split(body, '\n') + (if after == "" then [] else Split(after[1..], '\n'))
  {
    if after == "" {
      assert body + after == body;
    } else {
      assert body + after == body + ['\n'] + after[1..];
      SplitAt(body, after[1..], '\n');
    }
  }

  /** The lines of a text that has a `## key` line, an empty line and a body, before the rest. */
  lemma {:induction false} LinesAround(before: string, key: string, body: string, after: string)
    requires IsHeadingKey(key)
    requires after == "" || after[0] == '\n'
    ensures var a: seq<string> := if after == "" then [] else Split(after[1..], '\n');
      Split(before + "\n## " + key + "\n\n" + body + after, '\n') ==
        Split(before, '\n') + (["## " + key] + ([""] + Split(body, '\n') + a))
  {
    var head := "## " + key;
    assert '\n' !in head by {
      forall i | 0 <= i < |head| ensures head[i] != '\n' {
        if i >= 3 { assert head[i] == key[i - 3]; }
      }
    }
    var x := body + after;
    var y := "" + ['\n'] + x;
    assert before + "\n## " + key + "\n\n" + body + after == before + ['\n'] + head + ['\n'] + y;
    SplitFramed(before, head, y, '\n');
    SplitAt("", x, '\n');
    SplitTail(body, after);
  }

  /** What falls under `key` in such a line sequence: the empty line and the body lines, trimmed. */
  lemma {:induction false} GovernedAround(p: seq<string>, key: string, b: seq<string>, a: seq<string>)
    requires IsHeadingKey(key)
    requires NoHeadingFor(p, key) && NoHeadings(b)
    requires a == [] || (HeadingOf(a[0]).Some? && NoHeadingFor(a, key))
    ensures Governed("", p + (["## " + key] + ([""] + b + a)), key) == [""] + TrimLines(b)
  {
    var head := "## " + key;
    var r := [""] + b + a;
    HeadingOfRendered(key);
    GovernedSkip("", p, [head] + r, key);
    assert ([head] + r)[1..] == r;
    assert Governed("", [head] + r, key) == Governed(key, r, key);
    NoHeadingsAll(b);
    assert HeadingOf("") == None;
    NoHeadingsAll([""] + b);
    GovernedRun(key, [""] + b, a);
    if a != [] {
      forall i | 0 <= i < |a[1..]|
        ensures HeadingOf(a[1..][i]).None? || Trim(HeadingOf(a[1..][i]).value) != key
      {
        assert a[1..][i] == a[i + 1];
      }
      GovernedElsewhere(NextKey(key, a[0]), a[1..], key);
    }
    assert TrimLines([""] + b) == [""] + TrimLines(b);
  }

  /** A section that ends the text, or is followed after a blank line by text that starts with
      a heading line: its key gets the section's own trimmed lines, with a final empty one in the
      second case. */
  lemma {:induction false} SectionRecovered(before: string, key: string, rest: string, after: string)
    requires IsHeadingKey(key)
    requires NoHeadingFor(Split(before, '\n'), key)
    requires NoHeadings(Split(rest, '\n'))
    requires after == "" ||
      (|after| >= 5 && after[..5] == "\n\n## " && NoHeadingFor(Split(after[2..], '\n'), key))
    ensures var md := before + "\n## " + key + "\n\n" + (rest + after);
      var body := if after == "" then rest else rest + "\n";
      key in Parse(md) && Parse(md)[key] == JoinWith(DropLeadingEmpty(TrimLines(Split(body, '\n'))), "\n")
  {
    if after == "" {
      assert before + "\n## " + key + "\n\n" + (rest + after) == before + "\n## " + key + "\n\n" + rest + "";
      BodyRecovered(before, key, rest, "");
    } else {
      var next := after[2..];
      assert after == "\n\n" + next;
      assert next[..3] == after[2..5];
      assert rest + after == rest + "\n\n" + next;
      SectionBeforeHeading(before, key, rest, next);
    }
  }

  /** A section followed, after a blank line, by more text that starts with a heading line:
      the section keeps its own lines and a final empty one. */
  lemma {:induction false} SectionBeforeHeading(before: string, key: string, rest: string, next: string)
    requires IsHeadingKey(key)
    requires NoHeadingFor(Split(before, '\n'), key)
    requires NoHeadings(Split(rest, '\n'))
    requires |next| >= 3 && next[..3] == "## " && NoHeadingFor(Split(next, '\n'), key)
    ensures var md := before + "\n## " + key + "\n\n" + (rest + "\n\n" + next);
      key in Parse(md) && Parse(md)[key] == JoinWith(DropLeadingEmpty(TrimLines(Split(rest + "\n", '\n'))), "\n")
  {
    FirstLineHeads(next);
    NoHeadingsNewline(rest);
    assert ("\n" + next)[1..] == next;
    assert before + "\n## " + key + "\n\n" + (rest + "\n\n" + next) ==
      before + "\n## " + key + "\n\n" + (rest + "\n") + ("\n" + next);
    BodyRecovered(before, key, rest + "\n", "\n" + next);
  }

  /** Two bullet lines, as a generated block writes them, are two lines that trimming leaves
      alone and neither of which is a heading line. */
  lemma {:induction false} BulletLines(t: string, d: string)
    requires '\n' !in t && '\n' !in d
    requires |t| >= 2 && t[..2] == "- " && EndsVisibly(t)
    requires |d| >= 2 && d[..2] == "- " && EndsVisibly(d)
    ensures Split(t + "\n" + d, '\n') == [t, d]
    ensures Trim(t) == t && Trim(d) == d
    ensures NoHeadings([t, d])
  {
    SplitAt(t, d, '\n');
    SplitNone(t, '\n');
    SplitNone(d, '\n');
    TrimStartIdle(t);
    TrimEndIdle(t);
    TrimStartIdle(d);
    TrimEndIdle(d);
    assert HeadingOf(t).None? && HeadingOf(d).None?;
    assert [t, d][1..] == [d];
    assert NoHeadings([d][1..]);
  }

  /** Two bullet lines read back as themselves, with or without the final empty line that a
      following block leaves. */
  lemma {:induction false} BulletsReadBack(t: string, d: string)
    requires '\n' !in t && '\n' !in d
    requires |t| >= 2 && t[..2] == "- " && EndsVisibly(t)
    requires |d| >= 2 && d[..2] == "- " && EndsVisibly(d)
    ensures NoHeadings(Split(t + "\n" + d, '\n'))
    ensures JoinWith(DropLeadingEmpty(TrimLines(Split(t + "\n" + d, '\n'))), "\n") == t + "\n" + d
    ensures JoinWith(DropLeadingEmpty(TrimLines(Split(t + "\n" + d + "\n", '\n'))), "\n") == t + "\n" + d + "\n"
  {
    BulletLines(t, d);
    assert TrimLines([t, d]) == [t, d];
    NoHeadingsNewline(t + "\n" + d);
    assert Trim("") == "";
    assert TrimLines([t, d, ""]) == [t, d, ""];
    assert [t, d, ""][1..] == [d, ""];
    assert [d, ""][1..] == [""];
    assert DropLeadingEmpty([t, d]) == [t, d];
    assert JoinWith([t, d], "\n") == t + "\n" + d;
    assert DropLeadingEmpty([t, d, ""]) == [t, d, ""];
    assert JoinWith([d, ""], "\n") == d + "\n" + "";
    assert JoinWith([t, d, ""], "\n") == t + "\n" + (d + "\n" + "");
  }

  /** A trailing newline adds one empty line, which is no heading. */
  lemma {:induction false} NoHeadingsNewline(body: string)
    requires NoHeadings(Split(body, '\n'))
    ensures Split(body + "\n", '\n') == Split(body, '\n') + [""]
    ensures NoHeadings(Split(body + "\n", '\n'))
  {
    SplitTail(body, "\n");
    assert "\n"[1..] == "";
    var b := Split(body, '\n');
    NoHeadingsAll(b);
    NoHeadingsAll(b + [""]);
    assert forall k :: 0 <= k < |b| ==> (b + [""])[k] == b[k];
    assert HeadingOf("").None?;
  }

  /** The first line of a text that starts with `## ` is a heading line. */
  lemma {:induction false} FirstLineHeads(s: string)
    requires |s| >= 3 && s[..3] == "## "
    ensures HeadingOf(Split(s, '\n')[0]).Some?
  {
    SplitFirstKeeps(s, '\n', 3);
    HashHashSpaceIsHeading(Split(s, '\n')[0]);
  }

  /** The text after a `## key` line, up to the next heading line (or the end), is what the map
      holds for `key` when no other line heads `key`: its lines trimmed, leading empty ones
      dropped, newline-joined. Whatever the generator wrote there comes back with it. */
  lemma {:induction false} BodyRecovered(before: string, key: string, body: string, after: string)
    requires IsHeadingKey(key)
    requires NoHeadingFor(Split(before, '\n'), key)
    requires NoHeadings(Split(body, '\n'))
    requires after == "" ||
      (after[0] == '\n' && HeadingOf(Split(after[1..], '\n')[0]).Some? && NoHeadingFor(Split(after[1..], '\n'), key))
    ensures var md := before + "\n## " + key + "\n\n" + body + after;
      key in Parse(md) && Parse(md)[key] == JoinWith(DropLeadingEmpty(TrimLines(Split(body, '\n'))), "\n")
  {
    var md := before + "\n## " + key + "\n\n" + body + after;
    var a: seq<string> := if after == "" then [] else Split(after[1..], '\n');
    var b := Split(body, '\n');
    LinesAround(before, key, body, after);
    var lines := Split(before, '\n') + (["## " + key] + ([""] + b + a));
    GovernedAround(Split(before, '\n'), key, b, a);
    var t := TrimLines(b);
    var g := [""] + t;
    FoldBucket(Start, lines, key);
    AccumulateFresh(g);
    assert g[1..] == t;
    assert md != "";
  }

  // ---------------------------------------------------------------------------------------------
  // Which file is merged.

  /** `p.replace(/.json$/, '.md')`: the unescaped `.` lets any character other than a line
      terminator stand before `json`. Characters here are code points; JavaScript's `.` takes one
      UTF-16 code unit, so an astral character before `json` loses only its low surrogate there. */
  function ReplaceJsonSuffix(p: string): string {
    if |p| >= 5 && p[|p| - 4..] == "json" && !IsLineTerminator(p[|p| - 5]) then p[..|p| - 5] + ".md"
    else p
  }

  /** `/.json$/` matches `p` at `k`: a character other than a line terminator at `k`, then `json`,
      then the end of the input. */
  predicate JsonSuffixAt(p: string, k: int) {
    0 <= k && k + 5 <= |p| && !IsLineTerminator(p[k]) && p[k + 1..k + 5] == "json" && k + 5 == |p|
  }

  /** The path changes exactly when the pattern matches somewhere, and then the match is replaced
      by `.md` and the rest is kept. */
  lemma {:induction false} ReplaceJsonSuffixMatches(p: string)
    ensures ReplaceJsonSuffix(p) != p <==> exists k :: JsonSuffixAt(p, k)
    ensures forall k :: JsonSuffixAt(p, k) ==> ReplaceJsonSuffix(p) == p[..k] + ".md" + p[k + 5..]
  {
    forall k | JsonSuffixAt(p, k) ensures k == |p| - 5 && p[|p| - 4..] == "json" {
      assert p[|p| - 4..] == p[k + 1..k + 5];
    }
    if |p| >= 5 && p[|p| - 4..] == "json" && !IsLineTerminator(p[|p| - 5]) {
      var k := |p| - 5;
      assert p[k + 1..k + 5] == p[|p| - 4..];
      assert JsonSuffixAt(p, k);
      assert |ReplaceJsonSuffix(p)| == |p| - 2;
      assert p[k + 5..] == "";
    }
  }

  /** The merge-source path: an explicit non-empty `schemaMarkdown` wins; otherwise the schema path
      with its `json` suffix replaced. */
  function MergeSourcePath(schemaMarkdown: Option<string>, abSchemaPath: string): string {
    if schemaMarkdown.Some? && schemaMarkdown.value != "" then schemaMarkdown.value
    else ReplaceJsonSuffix(abSchemaPath)
  }

  /** The merge-file text: the file's contents when it exists, `''` otherwise. */
  function MergeSourceText(texts: map<string, string>, path: string): string {
    if path in texts then texts[path] else ""
  }

  lemma {:induction false} ExplicitSourceWins(schemaMarkdown: string, abSchemaPath: string)
    requires schemaMarkdown != ""
    ensures MergeSourcePath(Some(schemaMarkdown), abSchemaPath) == schemaMarkdown
  {
  }

  /** `config.json` is merged from `config.md`. */
  lemma {:induction false} JsonBecomesMd(base: string, schemaMarkdown: Option<string>)
    requires schemaMarkdown.None? || schemaMarkdown.value == ""
    ensures MergeSourcePath(schemaMarkdown, base + ".json") == base + ".md"
  {
    var p := base + ".json";
    assert p[|p| - 4..] == "json" && p[..|p| - 5] == base;
  }

  /** Any one non-terminator code point before `json` is replaced too: `configjson` is merged
      from `confi.md`. */
  lemma {:induction false} AnyCharacterBeforeJson(base: string, c: char)
    requires !IsLineTerminator(c)
    ensures ReplaceJsonSuffix(base + [c] + "json") == base + ".md"
    ensures ReplaceJsonSuffix("configjson") == "confi.md"
  {
    var p := base + [c] + "json";
    assert p[|p| - 4..] == "json" && p[..|p| - 5] == base;
    var q := "configjson";
    assert q[|q| - 4..] == "json" && q[..|q| - 5] == "confi";
  }

  /** A path that does not end in `json` is used as it is. */
  lemma {:induction false} OtherPathsUnchanged(p: string)
    requires |p| < 4 || p[|p| - 4..] != "json"
    ensures ReplaceJsonSuffix(p) == p
  {
  }
}
