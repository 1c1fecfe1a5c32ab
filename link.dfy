/** The link rewriter (utils/link.py): it accepts pasted e-mail HTML, removes
    the `elqTrack` query spans from its links, and swaps UTM query spans for
    a new tracking script. The three regular expressions are written out as
    one left-to-right scanner with Python `re.sub` semantics: at each
    position it tries a match, replaces a matched span and resumes at its
    end, and otherwise keeps the character and moves on. */
module Link {
  import opened Outcomes
  import opened Text

  // ---------------------------------------------------------------- the HTML test

  /** `<html[\s\S\n]*?</html>` finds a match: an `<html` with an `</html>`
      somewhere after it. */
  predicate IsHtml(code: string)
  {
    match FindFrom(code, "<html", 0)
    case None => false
    case Some(i) => FindFrom(code, "</html>", i + 5).Some?
  }

  /** The test accepts exactly the code holding `<html` followed, anywhere
      later and across any lines, by `</html>`. */
  lemma IsHtmlExactly(code: string)
    ensures IsHtml(code) <==>
      exists i: nat, j: nat | i + 5 <= j <= |code| :: OccursAt(code, "<html", i) && OccursAt(code, "</html>", j)
  {
    match FindFrom(code, "<html", 0)
    case None =>
    case Some(i) =>
      if exists i': nat, j: nat | i' + 5 <= j <= |code| :: OccursAt(code, "<html", i') && OccursAt(code, "</html>", j) {
        var i': nat, j: nat :| i' + 5 <= j <= |code| && OccursAt(code, "<html", i') && OccursAt(code, "</html>", j);
        assert i <= i';
      }
      match FindFrom(code, "</html>", i + 5)
      case None =>
      case Some(j) => assert i + 5 <= j <= |code|;
  }

  /** `get_code`: the first pasted text that passes the HTML test. */
  function FirstHtml(pastes: seq<string>): (r: Option<string>)
    ensures r.Some? ==> IsHtml(r.value) && r.value in pastes
    ensures r.Some? ==> exists k | 0 <= k < |pastes| :: pastes[k] == r.value && forall j | 0 <= j < k :: !IsHtml(pastes[j])
    ensures r.None? <==> forall k | 0 <= k < |pastes| :: !IsHtml(pastes[k])
  {
    if |pastes| == 0 then None
    else if IsHtml(pastes[0]) then Some(pastes[0])
    else FirstHtml(pastes[1..])
  }

  // ---------------------------------------------------------------- one match

  /** `(\?|&)`. */
  predicate IsOpener(c: char)
  {
    c == '?' || c == '&'
  }

  /** `(#|")`, the lookahead that ends a span and is not part of it. */
  predicate IsDelimiter(c: char)
  {
    c == '#' || c == '"'
  }

  /** Where a lazy `.*?` starting at k stops: the first delimiter, provided
      no newline comes before it (`.` does not match a newline). */
  function DelimiterFrom(s: string, k: nat): (r: Option<nat>)
    ensures r.Some? ==> k <= r.value < |s| && IsDelimiter(s[r.value])
    ensures r.Some? ==> forall m | k <= m < r.value :: !IsDelimiter(s[m]) && s[m] != '\n'
    decreases |s| - k
  {
    if k >= |s| then None
    else if IsDelimiter(s[k]) then Some(k)
    else if s[k] == '\n' then None
    else DelimiterFrom(s, k + 1)
  }

  lemma {:induction false} DelimiterFromIs(s: string, k: nat, e: nat)
    requires k <= e < |s| && IsDelimiter(s[e])
    requires forall m | k <= m < e :: !IsDelimiter(s[m]) && s[m] != '\n'
    ensures DelimiterFrom(s, k) == Some(e)
    decreases e - k
  {
    if k < e {
      DelimiterFromIs(s, k + 1, e);
    }
  }

  /** The alternation of keywords from the t-th on, after the opener at i:
      the first keyword that is present and whose span can end. */
  function KeywordEnd(s: string, i: nat, keywords: seq<string>, t: nat): (r: Option<nat>)
    ensures r.Some? ==> i < r.value < |s|
    decreases |keywords| - t
  {
    if t >= |keywords| then None
    else if OccursAt(s, keywords[t], i + 1) && DelimiterFrom(s, i + 1 + |keywords[t]|).Some? then
      DelimiterFrom(s, i + 1 + |keywords[t]|)
    else KeywordEnd(s, i, keywords, t + 1)
  }

  /** Where the pattern `(\?|&)(kw1|kw2|…).*?(?=(#|"))` matching at i ends. */
  function MatchEnd(s: string, i: nat, keywords: seq<string>): (r: Option<nat>)
    requires i < |s|
    ensures r.Some? ==> i < r.value < |s|
  {
    if IsOpener(s[i]) then KeywordEnd(s, i, keywords, 0) else None
  }

  /** A span for the keyword `kw` runs from i to e: an opener, the keyword,
      then characters up to the first delimiter, at e, with no newline. */
  predicate SpanWith(s: string, i: nat, kw: string, e: nat)
  {
    i < |s| && IsOpener(s[i]) && OccursAt(s, kw, i + 1) && i + 1 + |kw| <= e < |s| && IsDelimiter(s[e]) &&
    forall m | i + 1 + |kw| <= m < e :: !IsDelimiter(s[m]) && s[m] != '\n'
  }

  /** No two keywords begin with the same character, so at most one of them
      can follow an opener. */
  predicate KeywordsApart(keywords: seq<string>)
  {
    (forall t | 0 <= t < |keywords| :: |keywords[t]| > 0) &&
    forall a, b | 0 <= a < b < |keywords| :: keywords[a][0] != keywords[b][0]
  }

  lemma {:induction false} KeywordEndSound(s: string, i: nat, keywords: seq<string>, t: nat)
    requires i < |s| && IsOpener(s[i]) && KeywordEnd(s, i, keywords, t).Some?
    ensures exists u | t <= u < |keywords| :: SpanWith(s, i, keywords[u], KeywordEnd(s, i, keywords, t).value)
    decreases |keywords| - t
  {
    if !(OccursAt(s, keywords[t], i + 1) && DelimiterFrom(s, i + 1 + |keywords[t]|).Some?) {
      KeywordEndSound(s, i, keywords, t + 1);
    } else {
      assert SpanWith(s, i, keywords[t], KeywordEnd(s, i, keywords, t).value);
    }
  }

  lemma NotAtOtherFirstChar(s: string, kw: string, k: nat)
    requires |kw| > 0 && k < |s| && s[k] != kw[0]
    ensures !OccursAt(s, kw, k)
  {
    if k + |kw| <= |s| {
      assert s[k..k + |kw|][0] == s[k];
    }
  }

  lemma {:induction false} KeywordEndComplete(s: string, i: nat, keywords: seq<string>, t: nat, u: nat, e: nat)
    requires KeywordsApart(keywords) && t <= u < |keywords| && SpanWith(s, i, keywords[u], e)
    ensures KeywordEnd(s, i, keywords, t) == Some(e)
    decreases u - t
  {
    if t < u {
      assert s[i + 1] == keywords[u][0];
      NotAtOtherFirstChar(s, keywords[t], i + 1);
      KeywordEndComplete(s, i, keywords, t + 1, u, e);
    } else {
      DelimiterFromIs(s, i + 1 + |keywords[u]|, e);
    }
  }

  /** A match at i ends at e exactly when some keyword's span runs from i to e. */
  lemma MatchEndExactly(s: string, i: nat, keywords: seq<string>, e: nat)
    requires i < |s| && KeywordsApart(keywords)
    ensures MatchEnd(s, i, keywords) == Some(e) <==> exists u | 0 <= u < |keywords| :: SpanWith(s, i, keywords[u], e)
  {
    if MatchEnd(s, i, keywords) == Some(e) {
      KeywordEndSound(s, i, keywords, 0);
    }
    if exists u | 0 <= u < |keywords| :: SpanWith(s, i, keywords[u], e) {
      var u :| 0 <= u < |keywords| && SpanWith(s, i, keywords[u], e);
      KeywordEndComplete(s, i, keywords, 0, u, e);
    }
  }

  // ---------------------------------------------------------------- the scan

  /** A piece of the scanned text: a character left alone, or a matched span
      with its start and its text. */
  datatype Piece = Kept(c: char) | Span(start: nat, text: string)

  /** The left-to-right, non-overlapping scan from position i. */
  function Scan(s: string, keywords: seq<string>, i: nat): seq<Piece>
    decreases |s| - i
  {
    if i >= |s| then []
    else match MatchEnd(s, i, keywords)
      case Some(e) => [Span(i, s[i..e])] + Scan(s, keywords, e)
      case None => [Kept(s[i])] + Scan(s, keywords, i + 1)
  }

  /** The pieces written out with every span replaced by `rep`. */
  function Render(pieces: seq<Piece>, rep: string): string
  {
    if |pieces| == 0 then ""
    else (match pieces[0] case Kept(c) => [c] case Span(_, _) => rep) + Render(pieces[1..], rep)
  }

  /** The text a piece stands for. */
  function PieceText(p: Piece): string
  {
    match p
    case Kept(c) => [c]
    case Span(_, t) => t
  }

  /** The pieces written out with every span kept. */
  function Restored(pieces: seq<Piece>): string
  {
    if |pieces| == 0 then ""
    else PieceText(pieces[0]) + Restored(pieces[1..])
  }

  function SpanCount(pieces: seq<Piece>): nat
  {
    if |pieces| == 0 then 0 else (if pieces[0].Span? then 1 else 0) + SpanCount(pieces[1..])
  }

  /** `pattern.sub(rep, s)`. */
  function Substitute(s: string, keywords: seq<string>, rep: string): string
  {
    Render(Scan(s, keywords, 0), rep)
  }

  /** `len(pattern.findall(s))`. */
  function Count(s: string, keywords: seq<string>): nat
  {
    SpanCount(Scan(s, keywords, 0))
  }

  /** Where the scan goes on after position i: past the span, or past the
      character. */
  function NextAt(s: string, keywords: seq<string>, i: nat): (r: nat)
    requires i < |s|
    ensures i < r <= |s|
  {
    match MatchEnd(s, i, keywords)
    case Some(e) => e
    case None => i + 1
  }

  /** One step of the scan, put back: the text from i up to where the scan
      goes on, then the rest. */
  lemma RestoredStep(s: string, keywords: seq<string>, i: nat)
    requires i < |s|
    requires Restored(Scan(s, keywords, NextAt(s, keywords, i))) == s[NextAt(s, keywords, i)..]
    ensures Restored(Scan(s, keywords, i)) == s[i..]
  {
    var r := Scan(s, keywords, i);
    var e := NextAt(s, keywords, i);
    if MatchEnd(s, i, keywords).Some? {
      assert r[0] == Span(i, s[i..e]);
    } else {
      assert r[0] == Kept(s[i]) && [s[i]] == s[i..e];
    }
    assert r[1..] == Scan(s, keywords, e);
    assert Restored(r) == PieceText(r[0]) + Restored(r[1..]);
    assert s[i..] == s[i..e] + s[e..];
  }

  /** Putting the spans back gives the text: everything outside the spans is
      left exactly as it was, in order. */
  lemma {:induction false} ScanRestores(s: string, keywords: seq<string>, i: nat)
    requires i <= |s|
    ensures Restored(Scan(s, keywords, i)) == s[i..]
    decreases |s| - i
  {
    if i < |s| {
      ScanRestores(s, keywords, NextAt(s, keywords, i));
      RestoredStep(s, keywords, i);
    }
  }

  /** Piece `p` of a scan from i is, if a span, a match of the pattern at
      its start. */
  predicate SpanMatches(s: string, keywords: seq<string>, i: nat, p: Piece)
  {
    p.Span? ==>
      i <= p.start < |s| && MatchEnd(s, p.start, keywords) == Some(p.start + |p.text|) &&
      p.text == s[p.start..p.start + |p.text|]
  }

  /** Every span of the scan is a match of the pattern at its start. */
  lemma {:induction false} ScanSpansMatch(s: string, keywords: seq<string>, i: nat)
    requires i <= |s|
    ensures forall k | 0 <= k < |Scan(s, keywords, i)| :: SpanMatches(s, keywords, i, Scan(s, keywords, i)[k])
    decreases |s| - i
  {
    if i < |s| {
      var r := Scan(s, keywords, i);
      var e := if MatchEnd(s, i, keywords).Some? then MatchEnd(s, i, keywords).value else i + 1;
      var rest := Scan(s, keywords, e);
      ScanSpansMatch(s, keywords, e);
      assert r[1..] == rest;
      forall k | 0 <= k < |r| ensures SpanMatches(s, keywords, i, r[k]) {
        if k > 0 {
          assert r[k] == rest[k - 1];
          assert SpanMatches(s, keywords, e, rest[k - 1]);
        }
      }
    }
  }

  /** Without a span, the substitution leaves the text as it is. */
  lemma {:induction false} NoSpanNoChange(pieces: seq<Piece>, rep: string)
    requires SpanCount(pieces) == 0
    ensures Render(pieces, rep) == Restored(pieces)
    decreases |pieces|
  {
    if |pieces| > 0 {
      NoSpanNoChange(pieces[1..], rep);
    }
  }

  /** Replacing spans by the empty string never lengthens the text, and
      shortens it when there is a span. */
  lemma {:induction false} RemovalShortens(pieces: seq<Piece>)
    requires forall k | 0 <= k < |pieces| :: pieces[k].Span? ==> |pieces[k].text| > 0
    ensures |Render(pieces, "")| + SpanCount(pieces) <= |Restored(pieces)|
    decreases |pieces|
  {
    if |pieces| > 0 {
      RemovalShortens(pieces[1..]);
    }
  }

  /** The text of the first span, `findall(s)[0]`. */
  function FirstSpan(pieces: seq<Piece>): (r: Option<string>)
    ensures r.Some? <==> SpanCount(pieces) > 0
  {
    if |pieces| == 0 then None
    else if pieces[0].Span? then Some(pieces[0].text)
    else FirstSpan(pieces[1..])
  }

  // ---------------------------------------------------------------- the two patterns

  /** `(\?|&)elqTrack.*?(?=(#|"))`. */
  const ElqTrack: seq<string> := ["elqTrack"]

  /** `((\?|&)(kampania|utm).*?)(?=(#|"))`. */
  const UtmTrack: seq<string> := ["kampania", "utm"]

  lemma PatternsApart()
    ensures KeywordsApart(ElqTrack) && KeywordsApart(UtmTrack)
  {
  }

  /** Scanning with either pattern, every span is non-empty. */
  lemma SpansNonEmpty(s: string, keywords: seq<string>)
    ensures forall k | 0 <= k < |Scan(s, keywords, 0)| :: Scan(s, keywords, 0)[k].Span? ==> |Scan(s, keywords, 0)[k].text| > 0
  {
    ScanSpansMatch(s, keywords, 0);
  }

  // ---------------------------------------------------------------- clean_elq_track

  datatype CleanOutcome = NotFound | Cleaned(code: string, count: nat)

  /** `clean_elq_track` on accepted code: remove every elqTrack span, and
      report how many there were; with none the code is left alone. */
  function CleanElqTrack(code: string): (r: CleanOutcome)
    ensures r.NotFound? <==> Count(code, ElqTrack) == 0
    ensures r.Cleaned? ==> r.count == Count(code, ElqTrack) && r.count > 0
    ensures r.Cleaned? ==> |r.code| + r.count <= |code|
  {
    var pieces := Scan(code, ElqTrack, 0);
    if SpanCount(pieces) == 0 then NotFound
    else
      SpansNonEmpty(code, ElqTrack);
      RemovalShortens(pieces);
      ScanRestores(code, ElqTrack, 0);
      Cleaned(Render(pieces, ""), SpanCount(pieces))
  }

  /** Removing the elqTrack spans: the removed spans are matches of the
      pattern, and putting them back in their places restores the code. */
  lemma CleanedIsRemoval(code: string)
    ensures Restored(Scan(code, ElqTrack, 0)) == code
    ensures CleanElqTrack(code).Cleaned? ==> CleanElqTrack(code).code == Substitute(code, ElqTrack, "")
    ensures Count(code, ElqTrack) == 0 ==> Substitute(code, ElqTrack, "") == code
  {
    ScanRestores(code, ElqTrack, 0);
    if Count(code, ElqTrack) == 0 {
      NoSpanNoChange(Scan(code, ElqTrack, 0), "");
    }
  }

  // ---------------------------------------------------------------- no match is missed

  /** Position p lies inside one of the spans of `pieces`. */
  predicate InSpan(pieces: seq<Piece>, p: nat)
  {
    exists k | 0 <= k < |pieces| :: pieces[k].Span? && pieces[k].start <= p < pieces[k].start + |pieces[k].text|
  }

  /** The scan misses no match: wherever the pattern matches, a span of the
      scan covers that position; a match is passed over only inside an
      earlier span, as the non-overlapping `re.sub` does. */
  lemma {:induction false} ScanMissesNoMatch(s: string, keywords: seq<string>, i: nat)
    requires i <= |s|
    ensures forall p | i <= p < |s| && MatchEnd(s, p, keywords).Some? :: InSpan(Scan(s, keywords, i), p)
    decreases |s| - i
  {
    if i < |s| {
      var r := Scan(s, keywords, i);
      var e := NextAt(s, keywords, i);
      var rest := Scan(s, keywords, e);
      ScanMissesNoMatch(s, keywords, e);
      assert r[1..] == rest;
      forall p | i <= p < |s| && MatchEnd(s, p, keywords).Some? ensures InSpan(r, p) {
        if p < e {
          if MatchEnd(s, i, keywords).Some? {
            assert r[0] == Span(i, s[i..e]) && |s[i..e]| == e - i;
          }
        } else {
          var k :| 0 <= k < |rest| && rest[k].Span? && rest[k].start <= p < rest[k].start + |rest[k].text|;
          assert r[k + 1] == rest[k];
        }
      }
    }
  }

  /** A character at which a lazy span stops: a delimiter or a newline. */
  predicate IsStop(c: char)
  {
    IsDelimiter(c) || c == '\n'
  }

  /** The first stop at or after k. */
  function StopFrom(s: string, k: nat): (r: Option<nat>)
    ensures r.Some? ==> k <= r.value < |s| && IsStop(s[r.value]) && forall m | k <= m < r.value :: !IsStop(s[m])
    ensures r.None? ==> forall m | k <= m < |s| :: !IsStop(s[m])
    decreases |s| - k
  {
    if k >= |s| then None
    else if IsStop(s[k]) then Some(k)
    else StopFrom(s, k + 1)
  }

  lemma {:induction false} StopFromIs(s: string, k: nat, e: nat)
    requires k <= e < |s| && IsStop(s[e]) && forall m | k <= m < e :: !IsStop(s[m])
    ensures StopFrom(s, k) == Some(e)
    decreases e - k
  {
    if k < e {
      StopFromIs(s, k + 1, e);
    }
  }

  /** Keywords in which no stop character occurs. */
  predicate StopFree(keywords: seq<string>)
  {
    forall t, m | 0 <= t < |keywords| && 0 <= m < |keywords[t]| :: !IsStop(keywords[t][m])
  }

  /** What the removal of every span leaves of the text from j on. */
  function Remainder(s: string, keywords: seq<string>, j: nat): string
  {
    Render(Scan(s, keywords, j), "")
  }

  lemma RemainderStep(s: string, keywords: seq<string>, j: nat)
    requires j < |s|
    ensures MatchEnd(s, j, keywords).Some? ==> Remainder(s, keywords, j) == Remainder(s, keywords, MatchEnd(s, j, keywords).value)
    ensures MatchEnd(s, j, keywords).None? ==> Remainder(s, keywords, j) == [s[j]] + Remainder(s, keywords, j + 1)
  {
    var r := Scan(s, keywords, j);
    assert r[1..] == Scan(s, keywords, NextAt(s, keywords, j));
  }

  /** A span from j runs up to the first stop after j, which is its end. */
  lemma SpanEndsAtFirstStop(s: string, j: nat, kw: string, e: nat)
    requires SpanWith(s, j, kw, e) && forall m | 0 <= m < |kw| :: !IsStop(kw[m])
    ensures StopFrom(s, j) == Some(e)
  {
    forall m | j <= m < e ensures !IsStop(s[m]) {
      if j < m < j + 1 + |kw| {
        assert s[m] == s[j + 1..j + 1 + |kw|][m - j - 1];
      }
    }
    StopFromIs(s, j, e);
  }

  /** `w` agrees with the text from j up to its first stop, except where
      spans vanished: it is that text when there is no stop, and it
      otherwise begins with the text from j to some q before the stop,
      directly followed by the stop character. */
  predicate HeadOf(s: string, j: nat, w: string, q: nat)
    requires j <= |s|
  {
    (StopFrom(s, j).None? ==> w == s[j..]) &&
    (StopFrom(s, j).Some? ==>
      j <= q <= StopFrom(s, j).value && q - j < |w| && w[..q - j] == s[j..q] && w[q - j] == s[StopFrom(s, j).value])
  }

  /** Where the scan takes a span at j, the stop that ends it is the first
      after j, and the remainder from j begins with it. */
  lemma RemainderAtSpan(s: string, keywords: seq<string>, j: nat)
    requires j < |s| && StopFree(keywords) && MatchEnd(s, j, keywords).Some?
    ensures HeadOf(s, j, Remainder(s, keywords, j), j)
  {
    var e := MatchEnd(s, j, keywords).value;
    KeywordEndSound(s, j, keywords, 0);
    var u :| 0 <= u < |keywords| && SpanWith(s, j, keywords[u], e);
    SpanEndsAtFirstStop(s, j, keywords[u], e);
    RemainderStep(s, keywords, j);
    assert MatchEnd(s, e, keywords).None?;
    RemainderStep(s, keywords, e);
  }

  /** Where the scan keeps a stop at j, the remainder begins with it. */
  lemma RemainderAtStop(s: string, keywords: seq<string>, j: nat)
    requires j < |s| && MatchEnd(s, j, keywords).None? && IsStop(s[j])
    ensures HeadOf(s, j, Remainder(s, keywords, j), j)
  {
    RemainderStep(s, keywords, j);
  }

  /** A head of the text after a kept character that is not a stop gives,
      with that character in front, a head of the text from it. */
  lemma HeadAfterKept(s: string, j: nat, t: string, q': nat) returns (q: nat)
    requires j < |s| && !IsStop(s[j]) && HeadOf(s, j + 1, t, q')
    ensures HeadOf(s, j, [s[j]] + t, q)
  {
    q := q';
    assert StopFrom(s, j) == StopFrom(s, j + 1);
    if StopFrom(s, j + 1).None? {
      assert [s[j]] + s[j + 1..] == s[j..];
    } else {
      assert ([s[j]] + t)[..q - j] == [s[j]] + t[..q' - (j + 1)];
      assert [s[j]] + s[j + 1..q] == s[j..q];
    }
  }

  /** The remainder from j is a head of the text from j. */
  lemma {:induction false} RemainderHead(s: string, keywords: seq<string>, j: nat) returns (q: nat)
    requires j <= |s| && StopFree(keywords)
    ensures HeadOf(s, j, Remainder(s, keywords, j), q)
    decreases |s| - j
  {
    q := j;
    if j < |s| {
      if MatchEnd(s, j, keywords).Some? {
        RemainderAtSpan(s, keywords, j);
      } else if IsStop(s[j]) {
        RemainderAtStop(s, keywords, j);
      } else {
        var q' := RemainderHead(s, keywords, j + 1);
        RemainderStep(s, keywords, j);
        q := HeadAfterKept(s, j, Remainder(s, keywords, j + 1), q');
      }
    }
  }

  /** A span found just inside `[c] + t` is a span of t, one place earlier. */
  lemma SpanShift(c: char, t: string, p: nat, kw: string, e: nat)
    requires p >= 1 && SpanWith([c] + t, p, kw, e)
    ensures SpanWith(t, p - 1, kw, e - 1)
  {
    var w := [c] + t;
    assert w[p + 1..p + 1 + |kw|] == t[p..p + |kw|];
    forall m | p + |kw| <= m < e - 1 ensures !IsDelimiter(t[m]) && t[m] != '\n' {
      assert t[m] == w[m + 1];
    }
  }

  /** Between its opener and its end a span holds no stop, when its
      keyword holds none. */
  lemma SpanHasNoStop(w: string, p: nat, kw: string, e: nat)
    requires SpanWith(w, p, kw, e) && forall m | 0 <= m < |kw| :: !IsStop(kw[m])
    ensures IsStop(w[e]) && forall x | p + 1 <= x < e :: !IsStop(w[x])
  {
    forall x | p + 1 <= x < e ensures !IsStop(w[x]) {
      if x < p + 1 + |kw| {
        assert w[x] == w[p + 1..p + 1 + |kw|][x - p - 1];
      }
    }
  }

  /** With a head t of the text after j, `[s[j]] + t` copies the text from
      j + 1 to q and then shows the first stop after j. */
  lemma HeadCopies(s: string, j: nat, t: string, q: nat)
    requires j < |s| && StopFrom(s, j + 1).Some? && HeadOf(s, j + 1, t, q)
    ensures var w := [s[j]] + t; var n := q - (j + 1);
      n + 1 < |w| && IsStop(w[n + 1]) && w[n + 1] == s[StopFrom(s, j + 1).value] &&
      forall x | 1 <= x <= n :: w[x] == s[j + x] && !IsStop(w[x])
  {
    var w := [s[j]] + t;
    var n := q - (j + 1);
    assert w[n + 1] == t[n];
    var prefix := t[..n];
    assert prefix == s[j + 1..q];
    forall x | 1 <= x <= n ensures w[x] == s[j + x] && !IsStop(w[x]) {
      assert w[x] == t[x - 1] == prefix[x - 1];
    }
  }

  /** A span at the front of `[s[j]] + t`, where t is a head of the text
      after j, is a span of `s` itself at j: the keyword holds no stop, so
      it lies before the first stop, up to which t copies `s`. */
  lemma FrontSpanLifts(s: string, j: nat, t: string, q: nat, kw: string, e: nat)
    requires j < |s| && forall m | 0 <= m < |kw| :: !IsStop(kw[m])
    requires SpanWith([s[j]] + t, 0, kw, e)
    requires StopFrom(s, j + 1).Some? && HeadOf(s, j + 1, t, q)
    ensures SpanWith(s, j, kw, StopFrom(s, j + 1).value)
  {
    var w := [s[j]] + t;
    var n := q - (j + 1);
    SpanHasNoStop(w, 0, kw, e);
    HeadCopies(s, j, t, q);
    assert e == n + 1;
    assert s[j + 1..j + 1 + |kw|] == w[1..1 + |kw|];
  }

  /** Removing every span leaves no match anywhere: with keywords free of
      stops and with distinct first characters, a match in the remainder
      would already have been a match the scan took. */
  lemma {:induction false} RemainderHasNoMatch(s: string, keywords: seq<string>, j: nat)
    requires j <= |s| && KeywordsApart(keywords) && StopFree(keywords)
    ensures forall p | 0 <= p < |Remainder(s, keywords, j)| :: MatchEnd(Remainder(s, keywords, j), p, keywords).None?
    decreases |s| - j
  {
    if j < |s| {
      RemainderStep(s, keywords, j);
      match MatchEnd(s, j, keywords)
      case Some(e) =>
        RemainderHasNoMatch(s, keywords, e);
      case None =>
        var t := Remainder(s, keywords, j + 1);
        var w := [s[j]] + t;
        RemainderHasNoMatch(s, keywords, j + 1);
        forall p | 0 <= p < |w| ensures MatchEnd(w, p, keywords).None? {
          if MatchEnd(w, p, keywords).Some? {
            var e := MatchEnd(w, p, keywords).value;
            MatchEndExactly(w, p, keywords, e);
            var u :| 0 <= u < |keywords| && SpanWith(w, p, keywords[u], e);
            if p >= 1 {
              SpanShift(s[j], t, p, keywords[u], e);
              MatchEndExactly(t, p - 1, keywords, e - 1);
            } else {
              var q := RemainderHead(s, keywords, j + 1);
              if StopFrom(s, j + 1).Some? {
                FrontSpanLifts(s, j, t, q, keywords[u], e);
                MatchEndExactly(s, j, keywords, StopFrom(s, j + 1).value);
              }
            }
          }
        }
    }
  }

  /** A text where the pattern matches nowhere has no span. */
  lemma {:induction false} NoMatchNoSpan(s: string, keywords: seq<string>, i: nat)
    requires forall p | i <= p < |s| :: MatchEnd(s, p, keywords).None?
    ensures SpanCount(Scan(s, keywords, i)) == 0
    decreases |s| - i
  {
    if i < |s| {
      NoMatchNoSpan(s, keywords, i + 1);
      assert Scan(s, keywords, i)[1..] == Scan(s, keywords, i + 1);
    }
  }

  lemma ElqTrackStopFree()
    ensures StopFree(ElqTrack)
  {
    forall m | 0 <= m < |ElqTrack[0]| ensures !IsStop(ElqTrack[0][m]) {
      assert ElqTrack[0][m] in "elqTrack";
    }
  }

  /** The cleaned code holds no elqTrack span, so cleaning it again finds
      nothing: `clean_elq_track` returns the code without elqTrack UTMs. */
  lemma CleanedHasNoElqTrack(code: string)
    ensures CleanElqTrack(code).Cleaned? ==> Count(CleanElqTrack(code).code, ElqTrack) == 0
    ensures Count(ElqCleaned(code), ElqTrack) == 0
    ensures CleanElqTrack(ElqCleaned(code)) == NotFound
  {
    PatternsApart();
    ElqTrackStopFree();
    RemainderHasNoMatch(code, ElqTrack, 0);
    NoMatchNoSpan(Remainder(code, ElqTrack, 0), ElqTrack, 0);
  }

  // ---------------------------------------------------------------- swap_utm_track

  datatype SwapError =
    | UtmRejected     // the new script holds no UTM span: the prompt repeats
    | NoUtmInCode     // `findall(code)[0]` on a code without a UTM span
    | AnswerNotYesNo  // the answers ran out before a `y` or an `n`

  datatype SwapOutcome =
    | Swapped(code: string, count: nat, shown: string)
    | Declined(code: string, shown: string)

  /** The elqTrack clean-up `swap_utm_track` does first. */
  function ElqCleaned(code: string): (r: string)
    ensures Count(code, ElqTrack) == 0 ==> r == code
    ensures |r| <= |code|
  {
    CleanedIsRemoval(code);
    match CleanElqTrack(code) case NotFound => code case Cleaned(c, _) => c
  }

  /** The new script is accepted iff, followed by a `"`, it holds a UTM span. */
  predicate AcceptsUtm(newUtm: string)
  {
    Count(newUtm + "\"", UtmTrack) > 0
  }

  /** Answer k is the first answer that is y, Y, n or N. */
  predicate FirstYesNoAt(answers: seq<string>, k: int)
  {
    0 <= k < |answers| && answers[k] in ["y", "Y", "n", "N"] &&
    forall j | 0 <= j < k :: answers[j] !in ["y", "Y", "n", "N"]
  }

  /** The first answer that is y, Y, n or N, in lower case. */
  function FirstYesNo(answers: seq<string>): (r: Option<string>)
    ensures r.Some? ==> r.value == "y" || r.value == "n"
    ensures r == Some("y") ==> exists k :: FirstYesNoAt(answers, k) && answers[k] in ["y", "Y"]
    ensures r == Some("n") ==> exists k :: FirstYesNoAt(answers, k) && answers[k] in ["n", "N"]
    ensures r.None? <==> forall k | 0 <= k < |answers| :: answers[k] !in ["y", "Y", "n", "N"]
  {
    if |answers| == 0 then None
    else if answers[0] == "y" || answers[0] == "Y" then Some("y")
    else if answers[0] == "n" || answers[0] == "N" then Some("n")
    else FirstYesNo(answers[1..])
  }

  /** `swap_utm_track` on accepted code. */
  function SwapUtm(code: string, newUtm: string, answers: seq<string>): (r: Result<SwapOutcome, SwapError>)
    ensures r.Err? && r.error == UtmRejected <==> !AcceptsUtm(newUtm)
    ensures r.Err? && r.error == NoUtmInCode <==> AcceptsUtm(newUtm) && Count(ElqCleaned(code), UtmTrack) == 0
    ensures r.Err? && r.error == AnswerNotYesNo <==>
      AcceptsUtm(newUtm) && Count(ElqCleaned(code), UtmTrack) > 0 && FirstYesNo(answers).None?
    ensures r.Ok? ==> Count(ElqCleaned(code), UtmTrack) > 0 && FirstYesNo(answers).Some?
    ensures (r.Ok? && r.value.Swapped?) <==>
      AcceptsUtm(newUtm) && Count(ElqCleaned(code), UtmTrack) > 0 && FirstYesNo(answers) == Some("y")
    ensures (r.Ok? && r.value.Declined?) <==>
      AcceptsUtm(newUtm) && Count(ElqCleaned(code), UtmTrack) > 0 && FirstYesNo(answers) == Some("n")
    ensures r.Ok? && r.value.Swapped? ==>
      FirstYesNo(answers) == Some("y") && r.value.count == Count(ElqCleaned(code), UtmTrack) &&
      r.value.code == Substitute(ElqCleaned(code), UtmTrack, newUtm)
    ensures r.Ok? && r.value.Declined? ==> FirstYesNo(answers) == Some("n") && r.value.code == ElqCleaned(code)
  {
    var cleaned := ElqCleaned(code);
    if !AcceptsUtm(newUtm) then Err(UtmRejected)
    else
      var pieces := Scan(cleaned, UtmTrack, 0);
      match FirstSpan(pieces)
      case None => Err(NoUtmInCode)
      case Some(shown) =>
        match FirstYesNo(answers)
        case None => Err(AnswerNotYesNo)
        case Some(a) =>
          if a == "y" then Ok(Swapped(Render(pieces, newUtm), SpanCount(pieces), shown))
          else Ok(Declined(cleaned, shown))
  }

  /** In a swap the UTM spans of the cleaned code, put back, give that code,
      and the swapped code is the same pieces with each span replaced. */
  lemma SwapReplacesSpans(code: string, newUtm: string, answers: seq<string>)
    requires SwapUtm(code, newUtm, answers).Ok? && SwapUtm(code, newUtm, answers).value.Swapped?
    ensures var pieces := Scan(ElqCleaned(code), UtmTrack, 0);
      Restored(pieces) == ElqCleaned(code) &&
      SwapUtm(code, newUtm, answers).value.code == Render(pieces, newUtm) &&
      SwapUtm(code, newUtm, answers).value.shown == FirstSpan(pieces).value
  {
    ScanRestores(ElqCleaned(code), UtmTrack, 0);
  }
}
