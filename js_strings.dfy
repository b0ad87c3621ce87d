/**
 * The pieces of JavaScript string behaviour the generator relies on:
 * the WhiteSpace/LineTerminator sets used by `String.prototype.trim` and by the
 * regular-expression classes `\s` and `.`, `trim`, `split` on one character
 * and `Array.prototype.join` over strings.
 */
module JsStrings {

  /** `\s` in a JavaScript regular expression, and what `trim` strips. */
  predicate IsSpace(c: char) {
    c == '\t' || c == '\n' || c == '\U{000B}' || c == '\U{000C}' || c == '\r' || c == ' ' ||
    c == '\U{00A0}' || c == '\U{1680}' || ('\U{2000}' <= c <= '\U{200A}') ||
    c == '\U{2028}' || c == '\U{2029}' || c == '\U{202F}' || c == '\U{205F}' ||
    c == '\U{3000}' || c == '\U{FEFF}'
  }

  /** The characters `.` does not match in a regular expression without the `s` flag. */
  predicate IsLineTerminator(c: char) {
    c == '\n' || c == '\r' || c == '\U{2028}' || c == '\U{2029}'
  }

  /** The text is non-empty and its last character is not whitespace. */
  predicate EndsVisibly(s: string) {
    s != [] && !IsSpace(s[|s| - 1])
  }

  /** `s.trimStart()`: drops the longest all-whitespace prefix (`TrimStartShape`). */
  function TrimStart(s: string): string {
    if s != [] && IsSpace(s[0]) then TrimStart(s[1..]) else s
  }

  /** `s.trimEnd()`: drops the longest all-whitespace suffix (`TrimEndShape`). */
  function TrimEnd(s: string): string {
    if s != [] && IsSpace(s[|s| - 1]) then TrimEnd(s[..|s| - 1]) else s
  }

  /** What `trimStart` keeps is a suffix that does not start with whitespace, and all it drops is whitespace. */
  lemma {:induction false} TrimStartShape(s: string)
    ensures var r := TrimStart(s);
      |r| <= |s| && r == s[|s| - |r|..] &&
      (forall i :: 0 <= i < |s| - |r| ==> IsSpace(s[i])) &&
      (r == [] || !IsSpace(r[0]))
    decreases |s|
  {
    if s != [] && IsSpace(s[0]) {
      var t := s[1..];
      TrimStartShape(t);
      var r := TrimStart(t);
      assert t[|t| - |r|..] == s[|s| - |r|..];
      forall i | 0 <= i < |s| - |r| ensures IsSpace(s[i]) {
        if i > 0 {
          assert s[i] == t[i - 1];
        }
      }
    }
  }

  /** What `trimEnd` keeps is a prefix that does not end with whitespace, and all it drops is whitespace. */
  lemma {:induction false} TrimEndShape(s: string)
    ensures var r := TrimEnd(s);
      |r| <= |s| && r == s[..|r|] &&
      (forall i :: |r| <= i < |s| ==> IsSpace(s[i])) &&
      (r == [] || !IsSpace(r[|r| - 1]))
    decreases |s|
  {
    if s != [] && IsSpace(s[|s| - 1]) {
      var t := s[..|s| - 1];
      TrimEndShape(t);
      var r := TrimEnd(t);
      assert t[..|r|] == s[..|r|];
      forall i | |r| <= i < |s| ensures IsSpace(s[i]) {
        if i < |t| {
          assert s[i] == t[i];
        }
      }
    }
  }

  /** `s.trim()`. */
  function Trim(s: string): string {
    TrimEnd(TrimStart(s))
  }

  /** What `trim` leaves is the piece of its input starting at offset `i` that neither starts
      nor ends with whitespace, and everything it removed is whitespace. */
  lemma {:induction false} TrimIsInnerPiece(s: string)
    ensures var r, i := Trim(s), |s| - |TrimStart(s)|;
      0 <= i && i + |r| <= |s| && r == s[i..i + |r|] &&
      (forall j :: 0 <= j < i ==> IsSpace(s[j])) &&
      (forall j :: i + |r| <= j < |s| ==> IsSpace(s[j])) &&
      (r == [] || (!IsSpace(r[0]) && !IsSpace(r[|r| - 1])))
  {
    var t := TrimStart(s);
    var r := TrimEnd(t);
    var i := |s| - |t|;
    TrimStartShape(s);
    TrimEndShape(t);
    assert t == s[i..];
    assert r == t[..|r|];
    SliceOfSuffix(s, i, |r|);
    SpaceAfterPrefix(s, i, t, |r|);
    if r != [] {
      assert r[0] == t[0];
    }
  }

  lemma {:induction false} SliceOfSuffix(s: string, i: nat, k: nat)
    requires i + k <= |s|
    ensures s[i..][..k] == s[i..i + k]
  {
  }

  lemma {:induction false} SpaceAfterPrefix(s: string, i: nat, t: string, k: nat)
    requires i <= |s| && t == s[i..] && k <= |t|
    requires forall j :: k <= j < |t| ==> IsSpace(t[j])
    ensures forall j :: i + k <= j < |s| ==> IsSpace(s[j])
  {
    forall j | i + k <= j < |s| ensures IsSpace(s[j]) {
      assert s[j] == t[j - i];
    }
  }

  lemma {:induction false} TrimStartIdle(s: string)
    requires s == [] || !IsSpace(s[0])
    ensures TrimStart(s) == s
  {
  }

  lemma {:induction false} TrimEndIdle(s: string)
    requires s == [] || !IsSpace(s[|s| - 1])
    ensures TrimEnd(s) == s
  {
  }

  /** Trimming twice is trimming once. */
  lemma {:induction false} TrimIdempotent(s: string)
    ensures Trim(Trim(s)) == Trim(s)
  {
    var r := Trim(s);
    if r != [] {
      TrimIsInnerPiece(s);
      TrimStartIdle(r);
      TrimEndIdle(r);
    }
  }

  /** Trimming the end of `x + y`, when `x` ends with a visible character, only touches `y`. */
  lemma {:induction false} TrimEndKeepsVisiblePrefix(x: string, y: string)
    requires x != [] && !IsSpace(x[|x| - 1])
    ensures TrimEnd(x + y) == x + TrimEnd(y)
  {
    if y == [] {
      assert x + y == x;
      TrimEndIdle(x);
    } else if IsSpace(y[|y| - 1]) {
      assert (x + y)[..|x + y| - 1] == x + y[..|y| - 1];
      TrimEndKeepsVisiblePrefix(x, y[..|y| - 1]);
    } else {
      TrimEndIdle(x + y);
      TrimEndIdle(y);
    }
  }

  /** Trimming the start of `w + x`, when `w` is all whitespace and `x` starts visibly, drops exactly `w`. */
  lemma {:induction false} TrimStartDropsBlankPrefix(w: string, x: string)
    requires forall i :: 0 <= i < |w| ==> IsSpace(w[i])
    requires x != [] && !IsSpace(x[0])
    ensures TrimStart(w + x) == x
  {
    if w == [] {
      assert w + x == x;
      TrimStartIdle(x);
    } else {
      assert (w + x)[1..] == w[1..] + x;
      TrimStartDropsBlankPrefix(w[1..], x);
    }
  }

  /** Trimming the end of an all-whitespace string leaves nothing. */
  lemma {:induction false} TrimEndBlank(s: string)
    requires forall i :: 0 <= i < |s| ==> IsSpace(s[i])
    ensures TrimEnd(s) == ""
  {
    TrimEndShape(s);
  }

  /** Trimming a text that is blank-prefixed, then starts and ends a first part visibly, removes
      the blank prefix and trims only what follows the first part. */
  lemma {:induction false} TrimAfterVisible(w: string, head: string, tail: string)
    requires forall i :: 0 <= i < |w| ==> IsSpace(w[i])
    requires head != [] && !IsSpace(head[0]) && !IsSpace(head[|head| - 1])
    ensures Trim(w + head + tail) == head + TrimEnd(tail)
    ensures Trim(head + TrimEnd(tail)) == head + TrimEnd(tail)
  {
    assert w + head + tail == w + (head + tail);
    TrimStartDropsBlankPrefix(w, head + tail);
    TrimEndKeepsVisiblePrefix(head, tail);
    TrimStartIdle(head + TrimEnd(tail));
    var r := TrimEnd(tail);
    TrimEndShape(tail);
    if r == [] {
      assert head + r == head;
      TrimEndIdle(head);
    } else {
      TrimEndIdle(head + r);
    }
  }

  /** `parts.join(sep)` for an array of strings. */
  function JoinWith(parts: seq<string>, sep: string): string {
    if |parts| == 0 then ""
    else if |parts| == 1 then parts[0]
    else parts[0] + sep + JoinWith(parts[1..], sep)
  }

  /** Joining the first part onto the rest. */
  lemma {:induction false} JoinCons(x: string, parts: seq<string>, sep: string)
    requires parts != []
    ensures JoinWith([x] + parts, sep) == x + sep + JoinWith(parts, sep)
  {
    assert ([x] + parts)[1..] == parts;
  }

  /** Joining two non-empty lists puts one separator between their joins. */
  lemma {:induction false} JoinAppend(p: seq<string>, q: seq<string>, sep: string)
    requires p != [] && q != []
    ensures JoinWith(p + q, sep) == JoinWith(p, sep) + sep + JoinWith(q, sep)
  {
    if |p| == 1 {
      JoinCons(p[0], q, sep);
      assert p + q == [p[0]] + q;
    } else {
      JoinAppend(p[1..], q, sep);
      assert p + q == [p[0]] + (p[1..] + q);
      JoinCons(p[0], p[1..] + q, sep);
      JoinCons(p[0], p[1..], sep);
      assert p == [p[0]] + p[1..];
    }
  }

  /** A character in no part and not in the separator is not in the join. */
  lemma {:induction false} JoinWithout(parts: seq<string>, sep: string, c: char)
    requires forall i :: 0 <= i < |parts| ==> c !in parts[i]
    requires c !in sep
    ensures c !in JoinWith(parts, sep)
  {
    if |parts| > 1 {
      JoinWithout(parts[1..], sep, c);
    }
  }

  /** `s.split(c)` for a one-character separator: at least one piece, and no piece holds `c`. */
  function Split(s: string, c: char): (r: seq<string>)
    ensures |r| >= 1
    ensures forall i :: 0 <= i < |r| ==> c !in r[i]
  {
    if s == [] then [""]
    else if s[0] == c then [""] + Split(s[1..], c)
    else
      var rest := Split(s[1..], c);
      var r := [[s[0]] + rest[0]] + rest[1..];
      assert forall i :: 1 <= i < |r| ==> r[i] == rest[i];
      r
  }

  /** Joining the pieces with `c` gives `s` back. */
  lemma {:induction false} SplitJoin(s: string, c: char)
    ensures JoinWith(Split(s, c), [c]) == s
    decreases |s|
  {
    if s != [] {
      var rest := Split(s[1..], c);
      SplitJoin(s[1..], c);
      var r := Split(s, c);
      if s[0] == c {
        assert r == [""] + rest;
        JoinCons("", rest, [c]);
      } else if |rest| == 1 {
        assert r == [[s[0]] + rest[0]];
      } else {
        var tail := JoinWith(rest[1..], [c]);
        assert r[1..] == rest[1..];
        assert JoinWith(rest, [c]) == rest[0] + [c] + tail;
        assert JoinWith(r, [c]) == r[0] + [c] + tail;
      }
      assert s == [s[0]] + s[1..];
    }
  }

  /** A string without the separator is one piece. */
  lemma {:induction false} SplitNone(s: string, c: char)
    requires c !in s
    ensures Split(s, c) == [s]
  {
    if s != [] {
      assert c !in s[1..];
      SplitNone(s[1..], c);
      assert s == [s[0]] + s[1..];
    }
  }

  /** Splitting at a separator splits each side separately. */
  lemma {:induction false} SplitAt(a: string, b: string, c: char)
    ensures Split(a + [c] + b, c) == Split(a, c) + Split(b, c)
  {
    if a == [] {
      assert a + [c] + b == [c] + b;
      assert ([c] + b)[1..] == b;
    } else {
      var s := a + [c] + b;
      assert s[1..] == a[1..] + [c] + b;
      SplitAt(a[1..], b, c);
      assert s[0] == a[0];
      if a[0] != c {
        var ra, rb := Split(a[1..], c), Split(b, c);
        assert Split(s[1..], c) == ra + rb;
        assert (ra + rb)[0] == ra[0] && (ra + rb)[1..] == ra[1..] + rb;
      }
    }
  }

  /** A line framed by separators is one of the pieces. */
  lemma {:induction false} SplitFramed(a: string, m: string, b: string, c: char)
    requires c !in m
    ensures Split(a + [c] + m + [c] + b, c) == Split(a, c) + [m] + Split(b, c)
  {
    assert a + [c] + m + [c] + b == a + [c] + (m + [c] + b);
    SplitAt(a, m + [c] + b, c);
    SplitAt(m, b, c);
    SplitNone(m, c);
  }

  /** The first piece starts with any prefix that holds no separator. */
  lemma {:induction false} SplitFirstKeeps(s: string, c: char, n: nat)
    requires n <= |s| && c !in s[..n]
    ensures |Split(s, c)[0]| >= n && Split(s, c)[0][..n] == s[..n]
  {
    if n > 0 {
      assert s[0] == s[..n][0];
      assert s[1..][..n - 1] == s[1..n];
      assert s[1..][..n - 1] == s[..n][1..];
      SplitFirstKeeps(s[1..], c, n - 1);
      assert s[..n] == [s[0]] + s[1..][..n - 1];
    }
  }
}
