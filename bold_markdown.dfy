/**
 * The reply post-processing: a global replace of the regular expression
 * "two asterisks, a lazy group `(.*?)`, two asterisks" by the group ("$1").
 *
 * The global replace scans left to right. At a position that starts with
 * "**" the lazy group takes the shortest run of non-line-terminator
 * characters that is followed by "**"; if there is such a run the whole
 * match is replaced by the run and scanning resumes after the closing
 * "**", otherwise the character is kept and scanning resumes one position
 * later. Scan cuts a string into the pieces this produces; Render is the
 * replacement, Source puts the markers back.
 */
module BoldMarkdown {
  import opened Wrappers
  import opened JsText

  /** "**" starts at index j of s. */
  predicate MarkerAt(s: string, j: int)
  {
    0 <= j && j + 2 <= |s| && s[j] == '*' && s[j + 1] == '*'
  }

  /**
   * A match whose group starts at index k can end with the "**" at index j:
   * the group s[k..j] holds no line terminator (what `.` excludes).
   */
  predicate ClosesAt(s: string, k: int, j: int)
  {
    0 <= k <= j && MarkerAt(s, j) && forall m :: k <= m < j ==> !IsLineTerminator(s[m])
  }

  /** The lazy group followed by "**", from index k: the least j at which the group can close, if any. */
  function FindClose(s: string, k: nat): (r: Option<nat>)
    requires k <= |s|
    ensures r.Some? ==> ClosesAt(s, k, r.value)
    ensures r.Some? ==> forall j :: k <= j < r.value ==> !ClosesAt(s, k, j)
    ensures r.None? ==> forall j :: !ClosesAt(s, k, j)
    decreases |s| - k
  {
    if |s| < k + 2 then None
    else if s[k] == '*' && s[k + 1] == '*' then Some(k)
    else if IsLineTerminator(s[k]) then None
    else
      var r := FindClose(s, k + 1);
      assert forall j :: k < j ==> (ClosesAt(s, k, j) <==> ClosesAt(s, k + 1, j));
      r
  }

  /** What one step of the global replace produces: a kept character or a replaced match. */
  datatype Piece = Plain(c: char) | Bold(inner: string)

  /** Cuts s into the pieces of the left-to-right global replace. */
  function Scan(s: string): (ps: seq<Piece>)
    decreases |s|
  {
    if s == [] then []
    else if MarkerAt(s, 0) && FindClose(s, 2).Some? then
      var j := FindClose(s, 2).value;
      [Bold(s[2..j])] + Scan(s[j + 2..])
    else
      [Plain(s[0])] + Scan(s[1..])
  }

  /** The replacement "$1": a match becomes its group. */
  function Render(ps: seq<Piece>): string
  {
    if ps == [] then []
    else (match ps[0] case Plain(c) => [c] case Bold(inner) => inner) + Render(ps[1..])
  }

  /** The text the pieces were cut from: a match keeps its markers. */
  function Source(ps: seq<Piece>): string
  {
    if ps == [] then []
    else (match ps[0] case Plain(c) => [c] case Bold(inner) => "**" + inner + "**") + Source(ps[1..])
  }

  /** The number of replaced matches. */
  function BoldCount(ps: seq<Piece>): nat
  {
    if ps == [] then 0 else (if ps[0].Bold? then 1 else 0) + BoldCount(ps[1..])
  }

  /**
   * The group of a match spans one line and holds no "**" (the group is
   * lazy, so it stops at the first "**").
   */
  predicate WellFormed(p: Piece)
  {
    p.Bold? ==> forall m :: 0 <= m < |p.inner| ==> !IsLineTerminator(p.inner[m]) && !MarkerAt(p.inner, m)
  }

  /**
   * The reply text with every bold match replaced by its group. Each
   * replaced match removes exactly its four marker characters.
   */
  function StripBold(s: string): (r: string)
    ensures |r| + 4 * BoldCount(Scan(s)) == |s|
    ensures |r| <= |s|
  {
    ScanRoundTrip(s);
    SourceLength(Scan(s));
    Render(Scan(s))
  }

  /** Putting the markers back restores the scanned string. */
  lemma {:induction false} ScanRoundTrip(s: string)
    ensures Source(Scan(s)) == s
    decreases |s|
  {
    if s == [] {
    } else if MarkerAt(s, 0) && FindClose(s, 2).Some? {
      var j := FindClose(s, 2).value;
      ScanRoundTrip(s[j + 2..]);
      assert s == "**" + s[2..j] + "**" + s[j + 2..];
    } else {
      ScanRoundTrip(s[1..]);
      assert s == [s[0]] + s[1..];
    }
  }

  /** Each match contributes four more characters to the source than to the rendering. */
  lemma {:induction false} SourceLength(ps: seq<Piece>)
    ensures |Source(ps)| == |Render(ps)| + 4 * BoldCount(ps)
  {
    if ps != [] {
      SourceLength(ps[1..]);
    }
  }

  /** Every piece of a scan is well formed. */
  lemma {:induction false} ScanWellFormed(s: string)
    ensures forall k :: 0 <= k < |Scan(s)| ==> WellFormed(Scan(s)[k])
    decreases |s|
  {
    if s == [] {
    } else if MarkerAt(s, 0) && FindClose(s, 2).Some? {
      var j := FindClose(s, 2).value;
      ScanWellFormed(s[j + 2..]);
      var inner := s[2..j];
      forall m | 0 <= m < |inner| ensures !IsLineTerminator(inner[m]) && !MarkerAt(inner, m) {
        assert inner[m] == s[2 + m];
        if MarkerAt(inner, m) {
          assert ClosesAt(s, 2, 2 + m);
        }
      }
      assert WellFormed(Bold(inner));
    } else {
      ScanWellFormed(s[1..]);
    }
  }

  /** A string without "**" is returned unchanged. */
  lemma {:induction false} NoMarkerUnchanged(s: string)
    requires forall i :: !MarkerAt(s, i)
    ensures StripBold(s) == s
    decreases |s|
  {
    if s != [] {
      assert forall i :: MarkerAt(s[1..], i) ==> MarkerAt(s, i + 1);
      NoMarkerUnchanged(s[1..]);
      assert s == [s[0]] + s[1..];
    }
  }

  /** A "**" that is not closed later on the same line is kept, both of its characters. */
  lemma UnclosedMarkerKept(s: string)
    requires MarkerAt(s, 0) && FindClose(s, 2).None?
    ensures StripBold(s) == "**" + StripBold(s[2..])
  {
    var t := s[1..];
    if MarkerAt(t, 0) {
      if FindClose(t, 2).Some? {
        var j := FindClose(t, 2).value;
        assert ClosesAt(s, 2, j + 1) by {
          forall m | 2 <= m < j + 1 ensures !IsLineTerminator(s[m]) {
            if m > 2 { assert s[m] == t[m - 1]; }
          }
        }
      }
    }
    assert t[1..] == s[2..];
    assert Scan(t) == [Plain('*')] + Scan(s[2..]);
    var rest := Scan(s[2..]);
    assert Scan(s) == [Plain('*')] + ([Plain('*')] + rest);
    assert Render([Plain('*')] + rest) == "*" + Render(rest) by {
      assert ([Plain('*')] + rest)[1..] == rest;
    }
    assert ([Plain('*')] + ([Plain('*')] + rest))[1..] == [Plain('*')] + rest;
  }

  /** Characters before the first asterisk are copied as they are. */
  lemma {:induction false} PlainPrefix(p: string, s: string)
    requires forall i :: 0 <= i < |p| ==> p[i] != '*'
    ensures StripBold(p + s) == p + StripBold(s)
    decreases |p|
  {
    if p == [] {
      assert p + s == s;
    } else {
      var ps := p + s;
      assert ps[1..] == p[1..] + s;
      PlainPrefix(p[1..], s);
      assert Scan(ps) == [Plain(p[0])] + Scan(ps[1..]);
      RenderCons(Plain(p[0]), Scan(ps[1..]));
      assert p == [p[0]] + p[1..];
    }
  }

  lemma RenderCons(x: Piece, rest: seq<Piece>)
    ensures Render([x] + rest) == Render([x]) + Render(rest)
  {
    assert ([x] + rest)[1..] == rest;
  }

  /** A closed match at the head of the string is replaced by its group. */
  lemma MatchAtHead(s: string, j: nat)
    requires MarkerAt(s, 0) && FindClose(s, 2) == Some(j)
    ensures StripBold(s) == s[2..j] + StripBold(s[j + 2..])
  {
    var rest := Scan(s[j + 2..]);
    assert ([Bold(s[2..j])] + rest)[1..] == rest;
  }

  /**
   * Plain text, then a bold span whose group has no asterisk and no line
   * terminator: the text is copied, the span becomes its group, and the
   * replace goes on after the span.
   */
  lemma BoldSpanAfterPlain(p: string, w: string, q: string)
    requires forall i :: 0 <= i < |p| ==> p[i] != '*'
    requires forall i :: 0 <= i < |w| ==> w[i] != '*' && !IsLineTerminator(w[i])
    ensures StripBold(p + ("**" + w + "**" + q)) == p + (w + StripBold(q))
  {
    var t := "**" + w + "**" + q;
    PlainPrefix(p, t);
    var j := |w| + 2;
    assert t[2..j] == w && t[j + 2..] == q;
    assert forall m :: 2 <= m < j ==> t[m] == w[m - 2];
    ClosesAfterPlainRun(t, 2, j);
    MatchAtHead(t, j);
  }

  /** Both bold spans of a two-span reply are stripped, left to right. */
  lemma TwoSpansExample(s: string)
    requires s == "Hello **world**, **bye**"
    ensures StripBold(s) == "Hello world, bye"
  {
    var bye := "**" + "bye" + "**" + "";
    assert bye == "**bye**";
    var last := ", " + bye;
    assert last == ", **bye**";
    var world := "**" + "world" + "**" + last;
    assert world == "**world**, **bye**";
    assert s == "Hello " + world;
    BoldSpanAfterPlain("Hello ", "world", last);
    BoldSpanAfterPlain(", ", "bye", "");
    assert StripBold("") == "";
  }

  /** The group closes at the first "**" of a run free of asterisks and line terminators. */
  lemma {:induction false} ClosesAfterPlainRun(s: string, k: nat, j: nat)
    requires k <= j && MarkerAt(s, j)
    requires forall m :: k <= m < j ==> s[m] != '*' && !IsLineTerminator(s[m])
    ensures FindClose(s, k) == Some(j)
    decreases j - k
  {
    if k < j {
      ClosesAfterPlainRun(s, k + 1, j);
    }
  }
}
