/** Bold spans (`formatar_paragrafo_com_negrito`): the text is cut with
    `re.split(r'(\*\*.*?\*\*)', text)`, keeping the matched pieces, and
    each piece becomes one run: bold without its first and last two
    characters when it starts and ends with `**`, plain and verbatim
    otherwise. */
module Bold {
  import opened Wrappers
  import opened Text
  import opened Docx

  /** Two asterisks start at `k`. */
  predicate StarPairAt(s: string, k: nat) {
    k + 1 < |s| && s[k] == '*' && s[k + 1] == '*'
  }

  /** The lazy `.*?\*\*` from `j`: the first `k >= j` where `**` starts,
      provided no newline comes before it (`.` does not match a newline). */
  function CloseFrom(s: string, j: nat): (r: Option<nat>)
    requires j <= |s|
    ensures r.Some? ==> j <= r.value && StarPairAt(s, r.value)
    ensures r.Some? ==> forall k :: j <= k < r.value ==> s[k] != '\n' && !StarPairAt(s, k)
    ensures r.None? ==> forall k :: j <= k && StarPairAt(s, k) ==> exists q :: j <= q < k && s[q] == '\n'
    decreases |s| - j
  {
    if j + 1 >= |s| then None
    else if StarPairAt(s, j) then Some(j)
    else if s[j] == '\n' then None
    else CloseFrom(s, j + 1)
  }

  /** Where a match of `\*\*.*?\*\*` that starts at `i` ends, if one does. */
  function MatchEnd(s: string, i: nat): (r: Option<nat>)
    requires i <= |s|
    ensures r.Some? ==> i + 4 <= r.value <= |s| && StarPairAt(s, i) && StarPairAt(s, r.value - 2)
    ensures r.Some? ==> forall k :: i + 2 <= k < r.value - 2 ==> s[k] != '\n' && !StarPairAt(s, k)
    ensures r.None? ==> !StarPairAt(s, i)
                        || forall k :: i + 2 <= k && StarPairAt(s, k) ==> exists q :: i + 2 <= q < k && s[q] == '\n'
  {
    if StarPairAt(s, i) then
      match CloseFrom(s, i + 2)
      case Some(k) => Some(k + 2)
      case None => None
    else None
  }

  /** No match starts anywhere in `[lo, hi)`. */
  predicate NoMatchBetween(s: string, lo: nat, hi: nat)
    requires lo <= hi <= |s|
  {
    forall p :: lo <= p < hi ==> MatchEnd(s, p).None?
  }

  /** The scan of `re.split`: `start` is where the current plain piece began
      and `i` the next position to try; on a match the plain piece and the
      match are emitted and the scan resumes at the end of the match. */
  function SplitFrom(s: string, start: nat, i: nat): (parts: seq<string>)
    requires start <= i <= |s|
    requires NoMatchBetween(s, start, i)
    ensures |parts| >= 1
    decreases |s| - i
  {
    if i == |s| then [s[start..]]
    else match MatchEnd(s, i)
      case Some(e) => [s[start..i], s[i..e]] + SplitFrom(s, e, e)
      case None => SplitFrom(s, start, i + 1)
  }

  /** `re.split(r'(\*\*.*?\*\*)', s)`. */
  function SplitBold(s: string): seq<string> {
    SplitFrom(s, 0, 0)
  }

  function Concat(parts: seq<string>): string {
    if parts == [] then [] else parts[0] + Concat(parts[1..])
  }

  /** What a match looks like: `**`, then text without a newline in which
      no `**` starts, then `**` (the first closing pair after the opening). */
  predicate IsMatchedPiece(piece: string) {
    && |piece| >= 4
    && StartsWith(piece, "**") && EndsWith(piece, "**")
    && forall k :: 2 <= k < |piece| - 2 ==> piece[k] != '\n' && !StarPairAt(piece, k)
  }

  /** `piece[2:-2]` in Python: empty when the piece is shorter than four. */
  function Inner(piece: string): string {
    if |piece| >= 4 then piece[2..|piece| - 2] else []
  }

  /** The run one piece becomes. */
  function SpanOf(piece: string): Span {
    if StartsWith(piece, "**") && EndsWith(piece, "**") then Span(Inner(piece), true)
    else Span(piece, false)
  }

  function SpansOf(pieces: seq<string>): seq<Span> {
    if pieces == [] then [] else [SpanOf(pieces[0])] + SpansOf(pieces[1..])
  }

  /** The runs the paragraph receives for `text`, in order. */
  function Spans(text: string): seq<Span> {
    SpansOf(SplitBold(text))
  }

  /** The markdown a run came from: bold text between `**`. */
  function Restore(span: Span): string {
    if span.bold then "**" + span.text + "**" else span.text
  }

  function Unformat(spans: seq<Span>): string {
    if spans == [] then [] else Restore(spans[0]) + Unformat(spans[1..])
  }

  /** Cutting loses nothing: the pieces put back together are the text. */
  lemma {:induction false} SplitFromConcat(s: string, start: nat, i: nat)
    requires start <= i <= |s| && NoMatchBetween(s, start, i)
    ensures Concat(SplitFrom(s, start, i)) == s[start..]
    decreases |s| - i
  {
    if i == |s| {
      assert Concat([s[start..]]) == s[start..] + [];
    } else {
      match MatchEnd(s, i)
      case Some(e) =>
        SplitFromConcat(s, e, e);
        ConcatMatchStep(s, start, i, e, SplitFrom(s, e, e));
      case None =>
        SplitFromConcat(s, start, i + 1);
    }
  }

  /** The plain piece and the match in front of pieces that give the rest
      of the text give the text from `start`. */
  lemma ConcatMatchStep(s: string, start: nat, i: nat, e: nat, rest: seq<string>)
    requires start <= i <= e <= |s| && Concat(rest) == s[e..]
    ensures Concat([s[start..i], s[i..e]] + rest) == s[start..]
  {
    calc {
      Concat([s[start..i], s[i..e]] + rest);
      { assert ([s[start..i], s[i..e]] + rest)[1..] == [s[i..e]] + rest; }
      s[start..i] + Concat([s[i..e]] + rest);
      { assert ([s[i..e]] + rest)[1..] == rest; }
      s[start..i] + (s[i..e] + Concat(rest));
      { assert s[start..] == s[start..i] + (s[i..e] + s[e..]); }
      s[start..];
    }
  }

  /** The pieces alternate: plain, match, plain, ..., plain. With k matches
      there are 2k+1 pieces, and every odd-numbered piece is a match. */
  lemma {:induction false} SplitFromShape(s: string, start: nat, i: nat)
    requires start <= i <= |s| && NoMatchBetween(s, start, i)
    ensures var parts := SplitFrom(s, start, i);
            |parts| % 2 == 1
            && forall m :: 0 <= m < |parts| && m % 2 == 1 ==> IsMatchedPiece(parts[m])
    decreases |s| - i
  {
    if i < |s| {
      match MatchEnd(s, i)
      case Some(e) =>
        SplitFromShape(s, e, e);
        MatchIsPiece(s, i, e);
        var rest := SplitFrom(s, e, e);
        var parts := [s[start..i], s[i..e]] + rest;
        forall m | 0 <= m < |parts| && m % 2 == 1 ensures IsMatchedPiece(parts[m]) {
          if m > 1 { assert parts[m] == rest[m - 2]; }
        }
      case None =>
        SplitFromShape(s, start, i + 1);
    }
  }

  /** No match starts inside a plain piece: the even-numbered piece `m`
      covers `s[lo..lo + |parts[m]|]`, where `lo` is `start` plus the length
      of the pieces before it, and no position there starts a match. */
  lemma {:induction false} SplitFromPlain(s: string, start: nat, i: nat)
    requires start <= i <= |s| && NoMatchBetween(s, start, i)
    ensures var parts := SplitFrom(s, start, i);
            forall m :: 0 <= m < |parts| && m % 2 == 0 ==> PlainPieceAt(s, start, parts, m)
    decreases |s| - i
  {
    if i == |s| {
      assert SplitFrom(s, start, i)[..0] == [];
    } else {
      match MatchEnd(s, i)
      case Some(e) =>
        SplitFromPlain(s, e, e);
        assert forall k :: 0 <= k < |SplitFrom(s, e, e)| && k % 2 == 0 ==> PlainPieceAt(s, e, SplitFrom(s, e, e), k);
        var rest := SplitFrom(s, e, e);
        var parts := [s[start..i], s[i..e]] + rest;
        assert SplitFrom(s, start, i) == parts;
        forall m | 0 <= m < |parts| && m % 2 == 0 ensures PlainPieceAt(s, start, parts, m) {
          if m == 0 {
            assert parts[..0] == [];
            assert Concat(parts[..0]) == [];
            assert start + |parts[0]| == i;
          } else {
            PlainShift(s, start, e, s[start..i], s[i..e], rest, m);
          }
        }
      case None =>
        SplitFromPlain(s, start, i + 1);
        assert forall k :: 0 <= k < |SplitFrom(s, start, i + 1)| && k % 2 == 0 ==> PlainPieceAt(s, start, SplitFrom(s, start, i + 1), k);
        assert SplitFrom(s, start, i) == SplitFrom(s, start, i + 1);
    }
  }

  /** Piece `m` of `parts`, which start at `start` in `s`, fits in `s` and
      no match starts inside it. */
  predicate PlainPieceAt(s: string, start: nat, parts: seq<string>, m: nat)
    requires m < |parts|
  {
    var lo := start + |Concat(parts[..m])|;
    lo + |parts[m]| <= |s| && NoMatchBetween(s, lo, lo + |parts[m]|)
  }

  /** A plain piece of the pieces after a match stays plain with the
      plain piece and the match in front. */
  lemma PlainShift(s: string, start: nat, e: nat, a: string, b: string, rest: seq<string>, m: nat)
    requires start + |a| + |b| == e && 2 <= m < |rest| + 2
    requires PlainPieceAt(s, e, rest, m - 2)
    ensures PlainPieceAt(s, start, [a, b] + rest, m)
  {
    ConcatTwoInFront(a, b, rest, m);
    assert ([a, b] + rest)[m] == rest[m - 2];
  }

  lemma ConcatTwoInFront(a: string, b: string, rest: seq<string>, m: nat)
    requires 2 <= m <= |rest| + 2
    ensures Concat(([a, b] + rest)[..m]) == a + b + Concat(rest[..m - 2])
  {
    var p := ([a, b] + rest)[..m];
    assert p[0] == a && p[1..][0] == b;
    assert p[1..][1..] == rest[..m - 2];
  }

  /** A match found by `MatchEnd` has the shape of `IsMatchedPiece`. */
  lemma MatchIsPiece(s: string, i: nat, e: nat)
    requires i <= |s| && MatchEnd(s, i) == Some(e)
    ensures IsMatchedPiece(s[i..e])
  {
    var piece := s[i..e];
    var k := e - 2;
    assert CloseFrom(s, i + 2) == Some(k);
    assert piece[..2] == "**";
    assert piece[|piece| - 2..] == "**";
    forall q | 2 <= q < |piece| - 2 ensures piece[q] != '\n' && !StarPairAt(piece, q) {
      assert piece[q] == s[i + q] && piece[q + 1] == s[i + q + 1];
      assert !StarPairAt(s, i + q);
    }
  }

  /** The run a piece becomes, turned back into markdown. */
  function RestorePiece(piece: string): string {
    Restore(SpanOf(piece))
  }

  /** A piece that is not a stray `**` or `***` comes back as it was. */
  lemma RestorePieceExact(piece: string)
    ensures piece != "**" && piece != "***" ==> RestorePiece(piece) == piece
    ensures piece == "**" || piece == "***" ==> RestorePiece(piece) == "****"
  {
    if StartsWith(piece, "**") && EndsWith(piece, "**") && |piece| >= 4 {
      assert piece == piece[..2] + piece[2..|piece| - 2] + piece[|piece| - 2..];
    }
    if StartsWith(piece, "**") && EndsWith(piece, "**") && |piece| < 4 {
      assert piece[0] == '*' && piece[1] == '*' && piece[|piece| - 1] == '*';
      assert piece == "**" || piece == "***";
    }
  }

  /** The plain piece in front of a match is never a stray `**` or `***`:
      if it were, a shorter match would have started at its front. */
  lemma PlainBeforeMatch(s: string, start: nat, i: nat)
    requires start <= i < |s| && NoMatchBetween(s, start, i) && StarPairAt(s, i)
    ensures s[start..i] != "**" && s[start..i] != "***"
  {
    var piece := s[start..i];
    assert |piece| == 2 && StartsWith(piece, "**") ==> CloseFrom(s, start + 2) == Some(start + 2);
    assert |piece| == 3 && StartsWith(piece, "**") && piece[2] == '*' ==> CloseFrom(s, start + 2) == Some(start + 2);
    assert |piece| >= 2 && StartsWith(piece, "**") ==> MatchEnd(s, start).None?;
  }

  lemma UnformatAppend(a: seq<Span>, b: seq<Span>)
    ensures Unformat(a + b) == Unformat(a) + Unformat(b)
  {
    if a != [] {
      assert (a + b)[1..] == a[1..] + b;
      UnformatAppend(a[1..], b);
    } else {
      assert a + b == b;
    }
  }

  lemma SpansOfAppend(a: seq<string>, b: seq<string>)
    ensures SpansOf(a + b) == SpansOf(a) + SpansOf(b)
  {
    if a != [] {
      assert (a + b)[1..] == a[1..] + b;
      SpansOfAppend(a[1..], b);
    } else {
      assert a + b == b;
    }
  }

  /** The runs of `parts`, turned back into markdown, give `text` back,
      except that a stray `**` or `***` as the last piece comes back as
      `****` (it starts and ends with `**`, so it became an empty bold run). */
  predicate RestoresTo(parts: seq<string>, text: string)
    requires parts != []
  {
    var last := parts[|parts| - 1];
    if last == "**" || last == "***"
    then |last| <= |text| && Unformat(SpansOf(parts)) == text[..|text| - |last|] + "****"
    else Unformat(SpansOf(parts)) == text
  }

  lemma {:induction false} SplitFromRestores(s: string, start: nat, i: nat)
    requires start <= i <= |s| && NoMatchBetween(s, start, i)
    ensures RestoresTo(SplitFrom(s, start, i), s[start..])
    decreases |s| - i
  {
    if i == |s| {
      OnePieceRestores(s[start..]);
    } else {
      match MatchEnd(s, i)
      case Some(e) =>
        SplitFromRestores(s, e, e);
        MatchStepRestores(s, start, i, e);
      case None =>
        SplitFromRestores(s, start, i + 1);
    }
  }

  /** A match at `i` emits the plain piece before it and the match itself
      in front of pieces that already restore. */
  lemma MatchStepRestores(s: string, start: nat, i: nat, e: nat)
    requires start <= i < |s| && NoMatchBetween(s, start, i) && MatchEnd(s, i) == Some(e)
    requires RestoresTo(SplitFrom(s, e, e), s[e..])
    ensures RestoresTo(SplitFrom(s, start, i), s[start..])
  {
    SplitAtMatch(s, start, i, e);
    RestoreStep(s[start..i], s[i..e], SplitFrom(s, e, e), s[e..]);
  }

  /** The pieces a match at `i` emits: the plain text before it, which is
      no stray `**` or `***`, and the match itself. */
  lemma SplitAtMatch(s: string, start: nat, i: nat, e: nat)
    requires start <= i < |s| && NoMatchBetween(s, start, i) && MatchEnd(s, i) == Some(e)
    ensures SplitFrom(s, start, i) == [s[start..i], s[i..e]] + SplitFrom(s, e, e)
    ensures s[start..] == s[start..i] + s[i..e] + s[e..]
    ensures s[start..i] != "**" && s[start..i] != "***" && IsMatchedPiece(s[i..e])
  {
    SplitFromAtMatch(s, start, i, e);
    PlainBeforeMatch(s, start, i);
    MatchIsPiece(s, i, e);
  }

  lemma SplitFromAtMatch(s: string, start: nat, i: nat, e: nat)
    requires start <= i < |s| && NoMatchBetween(s, start, i) && MatchEnd(s, i) == Some(e)
    ensures SplitFrom(s, start, i) == [s[start..i], s[i..e]] + SplitFrom(s, e, e)
    ensures s[start..] == s[start..i] + s[i..e] + s[e..]
  {
  }

  /** The last piece of a split restores to itself. */
  lemma OnePieceRestores(piece: string)
    ensures RestoresTo([piece], piece)
  {
    RestorePieceExact(piece);
    assert SpansOf([piece]) == [SpanOf(piece)];
    assert Unformat([SpanOf(piece)]) == RestorePiece(piece) + [];
  }

  /** One step of `SplitFromRestores`: a plain piece and a match in front
      of pieces that already restore. */
  lemma RestoreStep(plain: string, matched: string, rest: seq<string>, text: string)
    requires plain != "**" && plain != "***" && IsMatchedPiece(matched)
    requires rest != [] && RestoresTo(rest, text)
    ensures RestoresTo([plain, matched] + rest, plain + matched + text)
  {
    TwoPiecesInFront(plain, matched, rest);
    PrependRestores([plain, matched] + rest, rest, plain + matched, text);
    assert plain + matched + text == (plain + matched) + text;
  }

  /** Pieces that restore to `text`, with pieces in front that restore to
      `front`, restore to `front + text`: the last piece decides the shape. */
  lemma PrependRestores(parts: seq<string>, rest: seq<string>, front: string, text: string)
    requires rest != [] && parts != [] && parts[|parts| - 1] == rest[|rest| - 1]
    requires Unformat(SpansOf(parts)) == front + Unformat(SpansOf(rest))
    requires RestoresTo(rest, text)
    ensures RestoresTo(parts, front + text)
  {
    var last := rest[|rest| - 1];
    if last == "**" || last == "***" {
      var whole := front + text;
      assert whole[..|whole| - |last|] == front + text[..|text| - |last|];
    }
  }

  lemma TwoPiecesInFront(plain: string, matched: string, rest: seq<string>)
    requires plain != "**" && plain != "***" && IsMatchedPiece(matched)
    ensures Unformat(SpansOf([plain, matched] + rest)) == plain + matched + Unformat(SpansOf(rest))
  {
    TwoPiecesRestore(plain, matched);
    SpansOfAppend([plain, matched], rest);
    UnformatAppend(SpansOf([plain, matched]), SpansOf(rest));
  }

  lemma TwoPiecesRestore(plain: string, matched: string)
    requires plain != "**" && plain != "***" && IsMatchedPiece(matched)
    ensures Unformat(SpansOf([plain, matched])) == plain + matched
  {
    RestorePieceExact(plain);
    RestorePieceExact(matched);
    assert [plain, matched][1..] == [matched];
    assert SpansOf([matched]) == [SpanOf(matched)];
    assert SpansOf([plain, matched]) == [SpanOf(plain), SpanOf(matched)];
    assert [SpanOf(plain), SpanOf(matched)][1..] == [SpanOf(matched)];
    assert Unformat([SpanOf(matched)]) == matched + [];
  }

  /** The runs of a line, turned back into markdown, give the line back;
      the one exception is a stray `**` or `***` at the end of the line,
      which becomes an empty bold run. */
  lemma SpansRestoreText(text: string)
    ensures var parts := SplitBold(text);
            var last := parts[|parts| - 1];
            if last == "**" || last == "***"
            then EndsWith(text, last) && Unformat(Spans(text)) == text[..|text| - |last|] + "****"
            else Unformat(Spans(text)) == text
  {
    SplitFromRestores(text, 0, 0);
    SplitFromConcat(text, 0, 0);
    var parts := SplitBold(text);
    var last := parts[|parts| - 1];
    ConcatLast(parts);
    assert text == Concat(parts[..|parts| - 1]) + last;
  }

  lemma {:induction false} ConcatLast(parts: seq<string>)
    requires parts != []
    ensures Concat(parts) == Concat(parts[..|parts| - 1]) + parts[|parts| - 1]
  {
    if |parts| == 1 {
      assert Concat(parts) == parts[0] + [];
    } else {
      ConcatLast(parts[1..]);
      assert parts[1..][..|parts[1..]| - 1] == parts[..|parts| - 1][1..];
    }
  }

  /** The pieces of `re.split`, joined, are the text; there is an odd
      number of them, every odd-numbered one is a `**...**` match whose
      run is bold with the markers removed, and no match starts inside an
      even-numbered (plain) one. */
  lemma SplitBoldShape(text: string)
    ensures Concat(SplitBold(text)) == text
    ensures |SplitBold(text)| % 2 == 1 && |Spans(text)| == |SplitBold(text)|
    ensures forall m :: 0 <= m < |SplitBold(text)| && m % 2 == 1 ==>
              IsMatchedPiece(SplitBold(text)[m])
              && Spans(text)[m] == Span(SplitBold(text)[m][2..|SplitBold(text)[m]| - 2], true)
    ensures forall m :: 0 <= m < |SplitBold(text)| && m % 2 == 0 ==> PlainPieceAt(text, 0, SplitBold(text), m)
  {
    SplitFromConcat(text, 0, 0);
    SplitFromShape(text, 0, 0);
    SplitFromPlain(text, 0, 0);
    var parts := SplitBold(text);
    SpansOfIndex(parts);
  }

  lemma {:induction false} SpansOfIndex(pieces: seq<string>)
    ensures |SpansOf(pieces)| == |pieces|
    ensures forall m :: 0 <= m < |pieces| ==> SpansOf(pieces)[m] == SpanOf(pieces[m])
  {
    if pieces != [] {
      SpansOfIndex(pieces[1..]);
      forall m | 1 <= m < |pieces| ensures SpansOf(pieces)[m] == SpanOf(pieces[m]) {
        assert pieces[1..][m - 1] == pieces[m];
      }
    }
  }

  /** The scan passes over text without asterisks: nothing matches there. */
  lemma {:induction false} SkipStarFree(s: string, start: nat, i: nat, j: nat)
    requires start <= i <= j <= |s| && NoMatchBetween(s, start, i)
    requires forall p :: i <= p < j ==> s[p] != '*'
    ensures NoMatchBetween(s, start, j)
    ensures SplitFrom(s, start, i) == SplitFrom(s, start, j)
    decreases j - i
  {
    if i < j {
      assert MatchEnd(s, i).None?;
      SkipStarFree(s, start, i + 1, j);
    }
  }

  /** The lazy closing search runs over text without asterisks or newlines
      to the first `**`. */
  lemma {:induction false} CloseAfterStarFree(s: string, j: nat, k: nat)
    requires j <= k && StarPairAt(s, k)
    requires forall p :: j <= p < k ==> s[p] != '*' && s[p] != '\n'
    ensures CloseFrom(s, j) == Some(k)
    decreases k - j
  {
    if j < k {
      CloseAfterStarFree(s, j + 1, k);
    }
  }

  /** A line without asterisks is one plain run. */
  lemma NoStarsOnePlainRun(text: string)
    requires '*' !in text
    ensures SplitBold(text) == [text]
    ensures Spans(text) == [Span(text, false)]
  {
    SkipStarFree(text, 0, 0, |text|);
    assert text[0..] == text;
    assert !StartsWith(text, "**") by {
      if |text| >= 2 { assert text[0] in text; }
    }
    SpansOfIndex([text]);
  }

  /** `pre**word**post` with no other asterisk and no newline in `word`
      splits into the plain `pre`, the match and the plain `post`; its runs
      are `pre`, bold `word`, `post`. */
  lemma OneBoldWord(pre: string, word: string, post: string)
    requires '*' !in pre && '*' !in word && '*' !in post && '\n' !in word
    ensures var s := pre + "**" + word + "**" + post;
            SplitBold(s) == [pre, "**" + word + "**", post]
            && Spans(s) == [Span(pre, false), Span(word, true), Span(post, false)]
  {
    var s := pre + "**" + word + "**" + post;
    OneBoldWordSplit(pre, word, post);
    var m := "**" + word + "**";
    var parts := [pre, m, post];
    assert !StartsWith(pre, "**") by {
      if |pre| >= 2 { assert pre[0] in pre; }
    }
    assert !StartsWith(post, "**") by {
      if |post| >= 2 { assert post[0] in post; }
    }
    assert Inner(m) == word;
    assert StartsWith(m, "**") && EndsWith(m, "**");
    SpansOfIndex(parts);
    assert SpanOf(parts[1]) == Span(word, true);
  }

  lemma OneBoldWordSplit(pre: string, word: string, post: string)
    requires '*' !in pre && '*' !in word && '*' !in post && '\n' !in word
    ensures SplitBold(pre + "**" + word + "**" + post) == [pre, "**" + word + "**", post]
  {
    var s := pre + "**" + word + "**" + post;
    var i := |pre|;
    var e := i + |word| + 4;
    StarFreePrefix(s, pre);
    BoldWordMatch(pre, word, post);
    StarFreeTail(s, e, post);
    assert SplitFrom(s, 0, i) == [s[0..i], s[i..e]] + SplitFrom(s, e, e);
    assert s[0..i] == pre && s[i..e] == "**" + word + "**";
  }

  /** The scan passes over a prefix without asterisks. */
  lemma StarFreePrefix(s: string, pre: string)
    requires '*' !in pre && StartsWith(s, pre)
    ensures NoMatchBetween(s, 0, |pre|) && SplitFrom(s, 0, 0) == SplitFrom(s, 0, |pre|)
  {
    forall p | 0 <= p < |pre| ensures s[p] != '*' { assert s[p] == pre[p]; }
    SkipStarFree(s, 0, 0, |pre|);
  }

  /** The text after the last match, without asterisks, is the last piece. */
  lemma StarFreeTail(s: string, e: nat, post: string)
    requires e <= |s| && s[e..] == post && '*' !in post
    ensures SplitFrom(s, e, e) == [post]
  {
    forall p | e <= p < |s| ensures s[p] != '*' { assert s[p] == post[p - e]; }
    SkipStarFree(s, e, e, |s|);
  }

  /** `**word**` is matched in full after `pre`. */
  lemma BoldWordMatch(pre: string, word: string, post: string)
    requires '*' !in word && '\n' !in word
    ensures MatchEnd(pre + "**" + word + "**" + post, |pre|) == Some(|pre| + |word| + 4)
  {
    var s := pre + "**" + word + "**" + post;
    var i := |pre|;
    var k := i + 2 + |word|;
    forall p | i + 2 <= p < k ensures s[p] != '*' && s[p] != '\n' {
      assert s[p] == word[p - i - 2];
    }
    CloseAfterStarFree(s, i + 2, k);
  }

  /** `formatar_paragrafo_com_negrito`: append one run per piece of the
      split, in order. */
  method FormatBold(p: ParagraphBuilder, text: string)
    modifies p
    ensures p.runs == old(p.runs) + Spans(text)
    ensures p.style == old(p.style)
  {
    var parts := SplitBold(text);
    var k := 0;
    while k < |parts|
      invariant k <= |parts|
      invariant p.runs == old(p.runs) + SpansOf(parts[..k])
      invariant p.style == old(p.style)
    {
      var part := parts[k];
      if StartsWith(part, "**") && EndsWith(part, "**") {
        p.AddRun(Inner(part), true);
      } else {
        p.AddRun(part, false);
      }
      SpansOfAppend(parts[..k], [part]);
      assert parts[..k + 1] == parts[..k] + [part];
      assert SpansOf([part]) == [SpanOf(part)];
      k := k + 1;
    }
    assert parts[..k] == parts;
  }

}
