/** The required-read pager: it cuts the UTF-8 bytes of one orientation source into pages. */
module OrientationPager {
  import opened JsonText
  import opened Utf8

  const MAX_SOURCE_BYTES := 192 * 1024
  const PAGE_BYTES := 3_000
  const PAGE_JSON_BYTES := 3_200
  const MAX_TOTAL_PAGES := 128
  const NEWLINE: byte := 0x0A

  /** `off` and `end` delimit a run of whole characters. */
  predicate Aligned(b: seq<byte>, off: int, end: int) {
    Valid(b) && Boundary(b, off) && Boundary(b, end) && off <= end
  }

  function SerializedContentBytes(b: seq<byte>, off: nat, end: nat): nat
    requires Aligned(b, off, end)
  {
    SliceIsValid(b, off, end);
    |Encode(Quote(Text(b[off..end])))|
  }

  predicate Fits(b: seq<byte>, off: nat, end: nat)
    requires Aligned(b, off, end)
  {
    SerializedContentBytes(b, off, end) <= PAGE_JSON_BYTES
  }

  lemma SerializedIsCost(b: seq<byte>, off: nat, end: nat)
    requires Aligned(b, off, end)
    ensures SerializedContentBytes(b, off, end) == TotalCost(b[off..end]) + 2
  {
    SliceIsValid(b, off, end);
    QuotedLength(Text(b[off..end]));
    EncodeDecode(b[off..end]);
  }

  /** A longer page never prints shorter, and each byte adds at least one and at most six. */
  lemma SerializedGrows(b: seq<byte>, off: nat, mid: nat, end: nat)
    requires Aligned(b, off, mid) && Aligned(b, mid, end)
    ensures end - mid
         <= SerializedContentBytes(b, off, end) - SerializedContentBytes(b, off, mid)
         <= 6 * (end - mid)
  {
    SerializedIsCost(b, off, mid);
    SerializedIsCost(b, off, end);
    assert b[off..end] == b[off..mid] + b[mid..end];
    CostAdds(b[off..mid], b[mid..end]);
    CostBounds(b[mid..end]);
  }

  /** No boundary in `lo + 1 .. hi` makes a page that fits. */
  ghost predicate NoneFit(b: seq<byte>, off: nat, lo: nat, hi: nat)
    requires Valid(b) && Boundary(b, off) && off <= lo
  {
    forall e :: lo < e <= hi && Boundary(b, e) ==> !Fits(b, off, e)
  }

  /** The largest number in `lo..hi` that passes a test, found from the top; `lo` when none does. */
  function LargestWhere(test: nat -> bool, lo: nat, hi: nat): (n: nat)
    requires lo <= hi
    ensures lo <= n <= hi
  {
    if hi == lo || test(hi) then hi else LargestWhere(test, lo, hi - 1)
  }

  lemma {:induction false} LargestPasses(test: nat -> bool, lo: nat, hi: nat)
    requires lo <= hi && test(lo)
    ensures test(LargestWhere(test, lo, hi))
  {
    if hi > lo && !test(hi) {
      LargestPasses(test, lo, hi - 1);
    }
  }

  lemma {:induction false} AboveLargestFails(test: nat -> bool, lo: nat, hi: nat, n: nat)
    requires lo <= hi && LargestWhere(test, lo, hi) < n <= hi
    ensures !test(n)
  {
    if n < hi {
      AboveLargestFails(test, lo, hi - 1, n);
    }
  }

  predicate IsFit(b: seq<byte>, off: nat, e: nat) {
    Aligned(b, off, e) && Fits(b, off, e)
  }

  function FitTest(b: seq<byte>, off: nat): nat -> bool {
    (e: nat) => IsFit(b, off, e)
  }

  lemma EmptyFits(b: seq<byte>, off: nat)
    requires Valid(b) && Boundary(b, off)
    ensures FitTest(b, off)(off)
  {
    SerializedIsCost(b, off, off);
  }

  /** What the search below is for: the largest boundary in `off..hi` whose text fits. */
  function LargestFit(b: seq<byte>, off: nat, hi: nat): (end: nat)
    requires Valid(b) && Boundary(b, off) && off <= hi <= |b|
    ensures Aligned(b, off, end) && end <= hi
  {
    EmptyFits(b, off);
    LargestPasses(FitTest(b, off), off, hi);
    LargestWhere(FitTest(b, off), off, hi)
  }

  lemma LargestFitFits(b: seq<byte>, off: nat, hi: nat)
    requires Valid(b) && Boundary(b, off) && off <= hi <= |b|
    ensures Fits(b, off, LargestFit(b, off, hi))
  {
    EmptyFits(b, off);
    LargestPasses(FitTest(b, off), off, hi);
  }

  lemma LargestFitIsLargest(b: seq<byte>, off: nat, hi: nat, e: nat)
    requires Valid(b) && Boundary(b, off) && off <= hi <= |b|
    requires LargestFit(b, off, hi) < e <= hi && Boundary(b, e)
    ensures !Fits(b, off, e)
  {
    AboveLargestFails(FitTest(b, off), off, hi, e);
    assert !IsFit(b, off, e);
  }

  /** A boundary that fits and has none above it that fits is the answer. */
  lemma {:induction false} LargestFitUnique(b: seq<byte>, off: nat, hi: nat, end: nat)
    requires Valid(b) && Boundary(b, off) && off <= hi <= |b|
    requires Aligned(b, off, end) && end <= hi && Fits(b, off, end)
    requires NoneFit(b, off, end, hi)
    ensures LargestFit(b, off, hi) == end
  {
    LargestFitFits(b, off, hi);
    if LargestFit(b, off, hi) < end {
      LargestFitIsLargest(b, off, hi, end);
    }
  }

  lemma NoneFitUpTo(b: seq<byte>, off: nat, lo: nat, mid: nat, hi: nat)
    requires Valid(b) && Boundary(b, off) && off <= lo <= mid <= hi
    requires NoneFit(b, off, lo, mid)
    requires forall e :: mid < e <= hi ==> !Boundary(b, e)
    ensures NoneFit(b, off, lo, hi)
  {
  }

  /** Backs off to the start of a character, or to `off` when there is none after it. */
  method Utf8SafePageEnd(b: seq<byte>, off: nat, candidate: nat) returns (pageEnd: nat)
    requires Boundary(b, off) && off <= candidate
    ensures off <= pageEnd <= candidate && Boundary(b, pageEnd)
    ensures forall e :: pageEnd < e <= candidate ==> !Boundary(b, e)
  {
    pageEnd := if |b| < candidate then |b| else candidate;
    while pageEnd > off && pageEnd < |b| && IsContinuation(b[pageEnd])
      invariant off <= pageEnd <= candidate && pageEnd <= |b|
      invariant forall e :: pageEnd < e <= candidate ==> !Boundary(b, e)
    {
      pageEnd := pageEnd - 1;
    }
  }

  /** The binary search against the printed size. It is exact: no boundary above the answer fits. */
  method TransportSafeEnd(b: seq<byte>, off: nat, candidate: nat) returns (best: nat)
    requires Aligned(b, off, candidate)
    ensures best <= candidate && Aligned(b, off, best) && Fits(b, off, best)
    ensures NoneFit(b, off, best, candidate)
    ensures off < candidate ==> off < best
  {
    if SerializedContentBytes(b, off, candidate) <= PAGE_JSON_BYTES {
      return candidate;
    }
    var low, high := off + 1, candidate as int;
    best := off;
    SerializedIsCost(b, off, off);
    while low <= high
      invariant off <= best <= candidate && Boundary(b, best) && Fits(b, off, best)
      invariant off < low && off <= high <= candidate
      invariant forall e :: off < e < low && Boundary(b, e) ==> e <= best
      invariant NoneFit(b, off, high, candidate)
      decreases high - low
    {
      var midpoint := (low + high) / 2;
      var pageEnd := Utf8SafePageEnd(b, off, midpoint);
      if pageEnd <= off {
        low := midpoint + 1;
        continue;
      }
      if SerializedContentBytes(b, off, pageEnd) <= PAGE_JSON_BYTES {
        best := if best < pageEnd then pageEnd else best;
        low := midpoint + 1;
      } else {
        forall e | pageEnd <= e <= candidate && Boundary(b, e)
          ensures !Fits(b, off, e)
        {
          SerializedGrows(b, off, pageEnd, e);
        }
        high := pageEnd - 1;
      }
    }
    if off < candidate {
      FirstCharacterFits(b, off);
    }
  }

  lemma FirstCharacterFits(b: seq<byte>, off: nat)
    requires Valid(b) && Boundary(b, off) && off < |b|
    ensures exists e :: off < e <= off + 4 && Boundary(b, e) && Fits(b, off, e)
    ensures forall e :: off < e && Boundary(b, e) ==> exists f :: off < f <= e && Boundary(b, f) && Fits(b, off, f)
  {
    var e, _ := NextBoundary(b, off);
    SerializedIsCost(b, off, off);
    SerializedGrows(b, off, off, e);
  }

  predicate OccursAt(b: seq<byte>, pattern: seq<byte>, q: int) {
    0 <= q && q + |pattern| <= |b| && b[q..q + |pattern|] == pattern
  }

  /** Node's `lastIndexOf`: the last position up to `from` where the pattern starts, or -1. */
  function LastIndexOf(b: seq<byte>, pattern: seq<byte>, from: int): (p: int)
    requires pattern != []
    ensures p == -1 || 0 <= p <= from
    decreases from
  {
    if from < 0 then -1
    else if OccursAt(b, pattern, from) then from
    else LastIndexOf(b, pattern, from - 1)
  }

  lemma {:induction false} LastIndexOccurs(b: seq<byte>, pattern: seq<byte>, from: int)
    requires pattern != [] && LastIndexOf(b, pattern, from) != -1
    ensures OccursAt(b, pattern, LastIndexOf(b, pattern, from))
    decreases from
  {
    if !OccursAt(b, pattern, from) {
      LastIndexOccurs(b, pattern, from - 1);
    }
  }

  lemma {:induction false} LastIndexIsLast(b: seq<byte>, pattern: seq<byte>, from: int, q: int)
    requires pattern != [] && LastIndexOf(b, pattern, from) < q <= from
    ensures !OccursAt(b, pattern, q)
    decreases from
  {
    if q < from {
      LastIndexIsLast(b, pattern, from - 1, q);
    }
  }

  /** How far a page may reach in raw bytes. */
  function Limit(b: seq<byte>, off: nat): nat {
    if |b| < off + PAGE_BYTES then |b| else off + PAGE_BYTES
  }

  function FittedEnd(b: seq<byte>, off: nat): (end: nat)
    requires Valid(b) && Boundary(b, off)
    ensures Aligned(b, off, end)
  {
    LargestFit(b, off, Limit(b, off))
  }

  /** The two searches of the source together find the fitted end. */
  lemma SearchedIsFitted(b: seq<byte>, off: nat, hardEnd: nat, pageEnd: nat)
    requires Valid(b) && Boundary(b, off) && off <= hardEnd <= Limit(b, off)
    requires forall e :: hardEnd < e <= Limit(b, off) ==> !Boundary(b, e)
    requires pageEnd <= hardEnd && Aligned(b, off, pageEnd) && Fits(b, off, pageEnd)
      && NoneFit(b, off, pageEnd, hardEnd)
    ensures pageEnd == FittedEnd(b, off)
  {
    NoneFitUpTo(b, off, pageEnd, hardEnd, Limit(b, off));
    LargestFitUnique(b, off, Limit(b, off), pageEnd);
  }

  /** The break preferred over the fitted end: a paragraph break or else a line break of the second half. */
  function BreakAt(off: nat, fitted: nat, paragraph: int, line: int): nat
    requires off <= fitted
  {
    var minimumSemanticEnd := off + (fitted - off) / 2;
    if paragraph >= minimumSemanticEnd then paragraph + 2
    else if line >= minimumSemanticEnd then line + 1
    else fitted
  }

  function LastParagraph(b: seq<byte>, from: int): int {
    LastIndexOf(b, [NEWLINE, NEWLINE], from)
  }

  function LastLine(b: seq<byte>, from: int): int {
    LastIndexOf(b, [NEWLINE], from)
  }

  function EndFrom(b: seq<byte>, off: nat, fitted: nat): nat
    requires off <= fitted
  {
    if fitted >= |b| then |b|
    else BreakAt(off, fitted, LastParagraph(b, fitted - 1), LastLine(b, fitted - 1))
  }

  /** Where the page that starts at `off` ends: the largest end that fits, pulled back to a
      paragraph break or a line break of its second half. */
  function PageEnd(b: seq<byte>, off: nat): nat
    requires Valid(b) && Boundary(b, off)
  {
    EndFrom(b, off, FittedEnd(b, off))
  }

  /** The raw limit backed off to a character, then the transport limit. */
  method SearchFittedEnd(b: seq<byte>, off: nat) returns (pageEnd: nat)
    requires Valid(b) && Boundary(b, off)
    ensures pageEnd == FittedEnd(b, off)
  {
    var hardEnd := Utf8SafePageEnd(b, off, if |b| < off + PAGE_BYTES then |b| else off + PAGE_BYTES);
    pageEnd := TransportSafeEnd(b, off, hardEnd);
    SearchedIsFitted(b, off, hardEnd, pageEnd);
  }

  method SemanticPageEnd(b: seq<byte>, off: nat, pageEnd: nat) returns (end: nat)
    requires off <= pageEnd
    ensures end == BreakAt(off, pageEnd, LastParagraph(b, pageEnd - 1), LastLine(b, pageEnd - 1))
  {
    var minimumSemanticEnd := off + (pageEnd - off) / 2;
    var paragraphEnd := LastParagraph(b, pageEnd - 1);
    if paragraphEnd >= minimumSemanticEnd {
      return paragraphEnd + 2;
    }
    var lineEnd := LastLine(b, pageEnd - 1);
    if lineEnd >= minimumSemanticEnd {
      return lineEnd + 1;
    }
    return pageEnd;
  }

  method OrientationRequiredReadPageEnd(b: seq<byte>, off: nat) returns (end: nat)
    requires Valid(b) && Boundary(b, off)
    ensures end == PageEnd(b, off)
  {
    var total := |b|;
    var pageEnd := SearchFittedEnd(b, off);
    if pageEnd >= total {
      return total;
    }
    end := SemanticPageEnd(b, off, pageEnd);
  }

  lemma AfterNewline(b: seq<byte>, i: nat)
    requires Valid(b) && i < |b| && b[i] == NEWLINE
    ensures Boundary(b, i) && Boundary(b, i + 1)
  {
    var k, c := NextBoundary(b, i);
    assert b[i..k][0] == NEWLINE;
    assert EncodeChar(c)[0] == NEWLINE;
  }

  /** When the fitted end is not the end of the source, the page up to it is long: either it
      reaches the raw limit or it is within one character of the printed limit. */
  lemma FittedEndIsLong(b: seq<byte>, off: nat)
    requires Valid(b) && Boundary(b, off) && FittedEnd(b, off) < |b|
    ensures FittedEnd(b, off) - off >= 533
  {
    var e := FittedEnd(b, off);
    var k, c := NextBoundary(b, e);
    if k <= Limit(b, off) {
      LargestFitIsLargest(b, off, Limit(b, off), k);
      SerializedIsCost(b, off, k);
      assert b[off..k] == b[off..e] + b[e..k];
      CostAdds(b[off..e], b[e..k]);
      CharCost(c);
      CostBounds(b[off..e]);
    }
  }

  lemma ParagraphAt(b: seq<byte>, q: int)
    ensures OccursAt(b, [NEWLINE, NEWLINE], q) <==> 0 <= q <= |b| - 2 && b[q] == NEWLINE && b[q + 1] == NEWLINE
  {
    if 0 <= q <= |b| - 2 {
      var s := b[q..q + 2];
      assert s[0] == b[q] && s[1] == b[q + 1];
      assert s == [s[0], s[1]];
    }
  }

  lemma LineAt(b: seq<byte>, q: int)
    ensures OccursAt(b, [NEWLINE], q) <==> 0 <= q < |b| && b[q] == NEWLINE
  {
    if 0 <= q < |b| {
      var s := b[q..q + 1];
      assert s == [b[q]] && s[0] == b[q];
    }
  }

  lemma ParagraphFound(b: seq<byte>, from: int) returns (q: int)
    ensures q == LastParagraph(b, from) && (q != -1 ==> 0 <= q <= |b| - 2 && b[q + 1] == NEWLINE)
  {
    q := LastParagraph(b, from);
    if q != -1 {
      LastIndexOccurs(b, [NEWLINE, NEWLINE], from);
      ParagraphAt(b, q);
    }
  }

  lemma LineFound(b: seq<byte>, from: int) returns (q: int)
    ensures q == LastLine(b, from) && (q != -1 ==> 0 <= q < |b| && b[q] == NEWLINE)
  {
    q := LastLine(b, from);
    if q != -1 {
      LastIndexOccurs(b, [NEWLINE], from);
      LineAt(b, q);
    }
  }

  /** A page that ends elsewhere than it must ends right after a newline. */
  lemma BreakFollowsNewline(b: seq<byte>, off: nat, fitted: nat)
    requires off <= fitted
    ensures var end := BreakAt(off, fitted, LastParagraph(b, fitted - 1), LastLine(b, fitted - 1));
      end != fitted ==> 1 <= end <= |b| && b[end - 1] == NEWLINE
  {
    var paragraph := ParagraphFound(b, fitted - 1);
    var line := LineFound(b, fitted - 1);
  }

  lemma EndAdvances(b: seq<byte>, off: nat, fitted: nat)
    requires Valid(b) && Boundary(b, fitted) && off + 533 <= fitted < |b|
    ensures off + 267 <= EndFrom(b, off, fitted) <= |b| && Boundary(b, EndFrom(b, off, fitted))
  {
    var end := EndFrom(b, off, fitted);
    if end != fitted {
      BreakFollowsNewline(b, off, fitted);
      AfterNewline(b, end - 1);
    }
  }

  /** Every call moves forward, to a character boundary. */
  lemma PageEndAdvances(b: seq<byte>, off: nat)
    requires Valid(b) && Boundary(b, off) && off < |b|
    ensures off < PageEnd(b, off) <= |b| && Boundary(b, PageEnd(b, off))
    ensures PageEnd(b, off) < |b| ==> PageEnd(b, off) - off >= 267
  {
    var e := FittedEnd(b, off);
    if e < |b| {
      FittedEndIsLong(b, off);
      EndAdvances(b, off, e);
    }
  }

  lemma NewlineCosts(b: seq<byte>, off: nat, e: nat)
    requires Aligned(b, off, e) && Aligned(b, off, e + 1) && b[e] == NEWLINE
    ensures SerializedContentBytes(b, off, e + 1) == SerializedContentBytes(b, off, e) + 2
  {
    SerializedIsCost(b, off, e);
    SerializedIsCost(b, off, e + 1);
    NewlineAdds(b, off, e);
  }

  lemma NewlineAdds(b: seq<byte>, off: nat, e: nat)
    requires off <= e < |b| && b[e] == NEWLINE
    ensures TotalCost(b[off..e + 1]) == TotalCost(b[off..e]) + 2
  {
    assert b[off..e + 1] == b[off..e] + [NEWLINE];
    CostAdds(b[off..e], [NEWLINE]);
    OneNewlineCosts();
  }

  lemma OneNewlineCosts()
    ensures TotalCost([NEWLINE]) == 2
  {
    assert [NEWLINE][1..] == [];
  }

  lemma PassesOnlyByParagraph(b: seq<byte>, off: nat)
    requires Valid(b) && Boundary(b, off) && FittedEnd(b, off) < |b| && off + 2 <= FittedEnd(b, off)
    ensures var e := FittedEnd(b, off);
      PageEnd(b, off) > e <==> OccursAt(b, [NEWLINE, NEWLINE], e - 1)
  {
    var e := FittedEnd(b, off);
    var paragraph := ParagraphFound(b, e - 1);
    if paragraph == e - 1 {
      LastIndexOccurs(b, [NEWLINE, NEWLINE], e - 1);
    } else {
      LastIndexIsLast(b, [NEWLINE, NEWLINE], e - 1, e - 1);
    }
  }

  /** A page passes its fitted end exactly when a paragraph break straddles that end. */
  lemma OvershootsExactlyAtParagraph(b: seq<byte>, off: nat)
    requires Valid(b) && Boundary(b, off) && off < |b|
    ensures var e := FittedEnd(b, off);
      off < e && (PageEnd(b, off) > e <==> StraddlesEnd(b, off))
  {
    var e := FittedEnd(b, off);
    if e < |b| {
      FittedEndIsLong(b, off);
      PassesOnlyByParagraph(b, off);
      ParagraphAt(b, e - 1);
    }
  }

  /** A paragraph break with one newline on each side of the fitted end. */
  predicate StraddlesEnd(b: seq<byte>, off: nat)
    requires Valid(b) && Boundary(b, off)
  {
    var e := FittedEnd(b, off);
    0 < e < |b| && b[e - 1] == NEWLINE && b[e] == NEWLINE
  }

  /** A page meets the two constants, 3000 bytes and 3200 JSON bytes, exactly when no paragraph break straddles
      its fitted end. */
  lemma KeepsConstantsExactlyOffParagraph(b: seq<byte>, off: nat)
    requires Valid(b) && Boundary(b, off) && off < |b|
    ensures Aligned(b, off, PageEnd(b, off))
    ensures PageEnd(b, off) - off <= PAGE_BYTES && Fits(b, off, PageEnd(b, off)) <==> !StraddlesEnd(b, off)
  {
    var e, end := FittedEnd(b, off), PageEnd(b, off);
    OvershootsExactlyAtParagraph(b, off);
    PageEndAdvances(b, off);
    LargestFitFits(b, off, Limit(b, off));
    if end <= e {
      SerializedGrows(b, off, end, e);
    } else if end - off <= PAGE_BYTES {
      LargestFitIsLargest(b, off, Limit(b, off), end);
    }
  }

  /** Past the fitted end there is exactly one newline more. */
  lemma PassesByOneNewline(b: seq<byte>, off: nat)
    requires Valid(b) && Boundary(b, off) && off < |b| && PageEnd(b, off) > FittedEnd(b, off)
    ensures PageEnd(b, off) == FittedEnd(b, off) + 1 <= |b| && b[FittedEnd(b, off)] == NEWLINE
  {
    OvershootsExactlyAtParagraph(b, off);
  }

  /** The bounds a page meets: one byte and one escaped newline more than the two constants. */
  lemma PageEndBounds(b: seq<byte>, off: nat)
    requires Valid(b) && Boundary(b, off) && off < |b|
    ensures Aligned(b, off, PageEnd(b, off))
    ensures PageEnd(b, off) - off <= PAGE_BYTES + 1
    ensures SerializedContentBytes(b, off, PageEnd(b, off)) <= PAGE_JSON_BYTES + 2
  {
    PageEndAdvances(b, off);
    var e, end := FittedEnd(b, off), PageEnd(b, off);
    LargestFitFits(b, off, Limit(b, off));
    if end > e {
      PassesByOneNewline(b, off);
    }
    EndBounds(b, off, e, end);
  }

  lemma EndBounds(b: seq<byte>, off: nat, e: nat, end: nat)
    requires Aligned(b, off, e) && Fits(b, off, e) && Aligned(b, off, end)
    requires end > e ==> end == e + 1 && b[e] == NEWLINE
    ensures SerializedContentBytes(b, off, end) <= PAGE_JSON_BYTES + 2
  {
    if end <= e {
      SerializedGrows(b, off, end, e);
    } else {
      NewlineCosts(b, off, e);
    }
  }

  /** Any plain ASCII source with a paragraph break straddling byte 3000 has a first page of 3001
      bytes, one more than the page constant. */
  lemma PageConstantExceeded(text: string)
    requires |text| > PAGE_BYTES + 1
    requires forall i :: 0 <= i < |text| ==> text[i] as int < 0x80
    requires forall i :: 0 <= i < PAGE_BYTES - 1 ==> text[i] == 'a'
    requires text[PAGE_BYTES - 1] == text[PAGE_BYTES] == '\n'
    ensures Valid(Encode(text))
    ensures PageEnd(Encode(text), 0) == PAGE_BYTES + 1
  {
    var b := Encode(text);
    DecodeEncode(text);
    AsciiLength(text);
    PlainPageFits(b);
    OvershootsExactlyAtParagraph(b, 0);
    PageEndBounds(b, 0);
  }

  /** Plain bytes up to the constant, with one newline, fit and fill the page. */
  lemma PlainPageFits(b: seq<byte>)
    requires Valid(b) && |b| > PAGE_BYTES && b[PAGE_BYTES - 1] == NEWLINE && Boundary(b, PAGE_BYTES)
    requires forall i :: 0 <= i < PAGE_BYTES - 1 ==> Cost(b[i]) == 1
    ensures FittedEnd(b, 0) == PAGE_BYTES
  {
    var e := PAGE_BYTES;
    NewlineAdds(b, 0, e - 1);
    PlainBytesCostOne(b[0..e - 1]);
    SerializedIsCost(b, 0, e);
    if LargestFit(b, 0, Limit(b, 0)) < e {
      LargestFitIsLargest(b, 0, Limit(b, 0), e);
    }
  }

  /** The ends of the pages from `off` on, one after the other. */
  function PageEnds(b: seq<byte>, off: nat): seq<nat>
    requires Valid(b) && Boundary(b, off)
    decreases |b| - off
  {
    if off >= |b| then []
    else
      PageEndAdvances(b, off);
      [PageEnd(b, off)] + PageEnds(b, PageEnd(b, off))
  }

  function StartOf(ends: seq<nat>, off: nat, j: nat): nat
    requires j <= |ends|
  {
    if j == 0 then off else ends[j - 1]
  }

  lemma {:induction false} PageAt(b: seq<byte>, off: nat, j: nat)
    requires Valid(b) && Boundary(b, off) && j < |PageEnds(b, off)|
    ensures var ends := PageEnds(b, off); var start := StartOf(ends, off, j);
      Boundary(b, start) && start < |b| && ends[j] == PageEnd(b, start)
    decreases j
  {
    PageEndAdvances(b, off);
    if j > 0 {
      PageAt(b, PageEnd(b, off), j - 1);
    }
  }

  lemma PageIsNonempty(b: seq<byte>, j: nat)
    requires Valid(b) && j < |PageEnds(b, 0)|
    ensures StartOf(PageEnds(b, 0), 0, j) < PageEnds(b, 0)[j]
  {
    PageAt(b, 0, j);
    PageEndAdvances(b, StartOf(PageEnds(b, 0), 0, j));
  }

  predicate RisesAt(ends: seq<nat>, j: nat)
    requires j < |ends|
  {
    StartOf(ends, 0, j) < ends[j]
  }

  lemma {:induction false} RisingEnds(ends: seq<nat>, n: nat)
    requires n <= |ends| && forall j :: 0 <= j < n ==> RisesAt(ends, j)
    ensures forall j :: 0 <= j < n ==> ends[j] <= StartOf(ends, 0, n)
  {
    if n > 0 {
      RisingEnds(ends, n - 1);
      assert RisesAt(ends, n - 1);
    }
  }

  lemma {:induction false} LastPageEnds(b: seq<byte>, off: nat)
    requires Valid(b) && Boundary(b, off)
    ensures var ends := PageEnds(b, off); StartOf(ends, off, |ends|) == |b|
    decreases |b| - off
  {
    if off < |b| {
      PageEndAdvances(b, off);
      var end := PageEnd(b, off);
      var rest := PageEnds(b, end);
      LastPageEnds(b, end);
      assert PageEnds(b, off) == [end] + rest;
      assert StartOf([end] + rest, off, |rest| + 1) == StartOf(rest, end, |rest|);
    }
  }

  /** The number of pages is between one per 3001 bytes and one per 267 bytes. */
  lemma {:induction false} PageCountBounds(b: seq<byte>, off: nat)
    requires Valid(b) && Boundary(b, off) && off < |b|
    ensures 267 * (|PageEnds(b, off)| - 1) < |b| - off <= 3001 * |PageEnds(b, off)|
    decreases |b| - off
  {
    PageEndAdvances(b, off);
    PageEndBounds(b, off);
    if PageEnd(b, off) < |b| {
      PageCountBounds(b, PageEnd(b, off));
    }
  }

  /** One page of the partition: aligned, bounded, and long enough unless it is the last. */
  predicate IsPage(b: seq<byte>, start: nat, end: nat, last: bool) {
    && Aligned(b, start, end)
    && 0 < end - start <= 3001
    && SerializedContentBytes(b, start, end) <= 3202
    && (!last ==> end - start >= 267)
    && (last <==> end >= |b|)
  }

  lemma PageIsPage(b: seq<byte>, j: nat)
    requires Valid(b) && j < |PageEnds(b, 0)|
    ensures IsPage(b, StartOf(PageEnds(b, 0), 0, j), PageEnds(b, 0)[j], j + 1 == |PageEnds(b, 0)|)
  {
    var ends := PageEnds(b, 0);
    var start := StartOf(ends, 0, j);
    PageAt(b, 0, j);
    PageEndAdvances(b, start);
    PageEndBounds(b, start);
    LastPageEnds(b, 0);
    if j + 1 < |ends| {
      PageAt(b, 0, j + 1);
    }
  }

  /** The whole partition of a source text: consecutive, aligned, bounded, long enough, covering. */
  lemma PagerTotals(text: string)
    ensures Valid(Encode(text))
    ensures var b := Encode(text); var ends := PageEnds(b, 0);
      && StartOf(ends, 0, |ends|) == |b|
      && (forall j :: 0 <= j < |ends| ==> IsPage(b, StartOf(ends, 0, j), ends[j], j + 1 == |ends|))
      && (b != [] ==> |ends| <= 1 + |b| / 267)
  {
    DecodeEncode(text);
    var b := Encode(text);
    var ends := PageEnds(b, 0);
    LastPageEnds(b, 0);
    forall j | 0 <= j < |ends|
      ensures IsPage(b, StartOf(ends, 0, j), ends[j], j + 1 == |ends|)
    {
      PageIsPage(b, j);
    }
    if b != [] {
      PageCountBounds(b, 0);
    }
  }

  // ---- where a page breaks ----

  predicate ParagraphBreak(b: seq<byte>, q: nat) {
    q + 1 < |b| && b[q] == 10 && b[q + 1] == 10
  }

  /** The last paragraph break that starts from `low` on and before `high`. */
  predicate LastParagraphBreak(b: seq<byte>, low: nat, high: nat, q: nat) {
    low <= q < high && ParagraphBreak(b, q) && forall r :: q < r < high ==> !ParagraphBreak(b, r)
  }

  predicate LineBreak(b: seq<byte>, q: nat) {
    q < |b| && b[q] == 10
  }

  predicate LastLineBreak(b: seq<byte>, low: nat, high: nat, q: nat) {
    low <= q < high && LineBreak(b, q) && forall r :: q < r < high ==> !LineBreak(b, r)
  }

  lemma ParagraphSearched(b: seq<byte>, low: nat, high: nat)
    ensures var q := LastParagraph(b, high - 1);
      if q >= low then LastParagraphBreak(b, low, high, q) else forall r :: low <= r < high ==> !ParagraphBreak(b, r)
  {
    var q := ParagraphFound(b, high - 1);
    if q != -1 {
      LastIndexOccurs(b, [NEWLINE, NEWLINE], high - 1);
      ParagraphAt(b, q);
    }
    forall r: nat | q < r < high
      ensures !ParagraphBreak(b, r)
    {
      LastIndexIsLast(b, [NEWLINE, NEWLINE], high - 1, r);
      ParagraphAt(b, r);
    }
  }

  lemma LineSearched(b: seq<byte>, low: nat, high: nat)
    ensures var q := LastLine(b, high - 1);
      if q >= low then LastLineBreak(b, low, high, q) else forall r :: low <= r < high ==> !LineBreak(b, r)
  {
    var q := LineFound(b, high - 1);
    forall r: nat | q < r < high
      ensures !LineBreak(b, r)
    {
      LastIndexIsLast(b, [NEWLINE], high - 1, r);
      LineAt(b, r);
    }
  }

  /** The largest end at a character boundary with at most 3000 bytes and 3200 bytes of JSON text. */
  ghost predicate LargestPage(b: seq<byte>, off: nat, e: nat) {
    && Aligned(b, off, e) && e <= off + 3000 && SerializedContentBytes(b, off, e) <= 3200
    && forall k :: e < k <= off + 3000 && Boundary(b, k) ==> SerializedContentBytes(b, off, k) > 3200
  }

  lemma FittedIsLargest(b: seq<byte>, off: nat)
    requires Valid(b) && Boundary(b, off)
    ensures LargestPage(b, off, FittedEnd(b, off))
  {
    var e := FittedEnd(b, off);
    LargestFitFits(b, off, Limit(b, off));
    forall k | e < k <= off + 3000 && Boundary(b, k)
      ensures SerializedContentBytes(b, off, k) > 3200
    {
      LargestFitIsLargest(b, off, Limit(b, off), k);
    }
  }

  lemma LargestIsFitted(b: seq<byte>, off: nat, e: nat)
    requires LargestPage(b, off, e) && Boundary(b, off)
    ensures e == FittedEnd(b, off)
  {
    FittedIsLargest(b, off);
  }

  /** A page holds the rest of a source that fits. Otherwise it ends behind the last paragraph break that starts in
      the second half of the largest page, else behind the last line break there, else where the largest page does. */
  lemma PageEndsAtBreak(b: seq<byte>, off: nat, e: nat, q: nat)
    requires Boundary(b, off) && LargestPage(b, off, e)
    ensures e == |b| ==> PageEnd(b, off) == |b|
    ensures e < |b| ==> var half := off + (e - off) / 2;
      && (LastParagraphBreak(b, half, e, q) ==> PageEnd(b, off) == q + 2)
      && ((forall r :: half <= r < e ==> !ParagraphBreak(b, r)) && LastLineBreak(b, half, e, q) ==>
            PageEnd(b, off) == q + 1)
      && ((forall r :: half <= r < e ==> !LineBreak(b, r)) ==> PageEnd(b, off) == e)
  {
    LargestIsFitted(b, off, e);
    if e < |b| {
      EndsAtBreak(b, off, e, q);
    }
  }

  lemma EndsAtBreak(b: seq<byte>, off: nat, e: nat, q: nat)
    requires off <= e < |b|
    ensures var half := off + (e - off) / 2; var end := EndFrom(b, off, e);
      && (LastParagraphBreak(b, half, e, q) ==> end == q + 2)
      && ((forall r :: half <= r < e ==> !ParagraphBreak(b, r)) && LastLineBreak(b, half, e, q) ==> end == q + 1)
      && ((forall r :: half <= r < e ==> !LineBreak(b, r)) ==> end == e)
  {
    var half := off + (e - off) / 2;
    ParagraphSearched(b, half, e);
    LineSearched(b, half, e);
    if LastParagraphBreak(b, half, e, q) {
      assert ParagraphBreak(b, q);
    }
    if forall r :: half <= r < e ==> !LineBreak(b, r) {
      forall r | half <= r < e
        ensures !ParagraphBreak(b, r)
      {
        assert !LineBreak(b, r);
      }
    }
  }

  datatype SourceBound =
    | Bounded(sourceBytes: nat, pageCount: nat)
    | SourceBoundExceeded
    | PageBoundExceeded
    | PageBoundaryInvalid

  /** What the two bounds mean, without the loop. */
  function BoundOf(text: string): SourceBound {
    PagerTotals(text);
    var b := Encode(text);
    if |b| > MAX_SOURCE_BYTES then SourceBoundExceeded
    else if |PageEnds(b, 0)| > MAX_TOTAL_PAGES then PageBoundExceeded
    else Bounded(|b|, |PageEnds(b, 0)|)
  }

  /** Counts pages by running the pager; the boundary refusal never happens. */
  method OrientationRequiredReadPageCount(text: string) returns (r: SourceBound)
    ensures Valid(Encode(text))
    ensures var n := |PageEnds(Encode(text), 0)|;
      r == if n <= MAX_TOTAL_PAGES then Bounded(|Encode(text)|, n) else PageBoundExceeded
  {
    DecodeEncode(text);
    var b := Encode(text);
    var off, pageCount := 0, 0;
    while off < |b|
      invariant Boundary(b, off) && pageCount <= MAX_TOTAL_PAGES
      invariant |PageEnds(b, 0)| == pageCount + |PageEnds(b, off)|
      decreases |b| - off
    {
      var pageEnd := OrientationRequiredReadPageEnd(b, off);
      PageEndAdvances(b, off);
      if pageEnd <= off {
        return PageBoundaryInvalid;
      }
      pageCount := pageCount + 1;
      if pageCount > MAX_TOTAL_PAGES {
        return PageBoundExceeded;
      }
      off := pageEnd;
    }
    return Bounded(|b|, pageCount);
  }

  method AssertOrientationRequiredReadSourceBound(text: string) returns (r: SourceBound)
    ensures r == BoundOf(text)
  {
    var bytes := |Encode(text)|;
    if bytes > MAX_SOURCE_BYTES {
      return SourceBoundExceeded;
    }
    r := OrientationRequiredReadPageCount(text);
  }


  /** A source is admitted with at most 192 KiB and at most 128 pages; too many bytes is said before too many pages. */
  lemma BoundSays(text: string)
    ensures Valid(Encode(text))
    ensures var bytes, pages := |Encode(text)|, |PageEnds(Encode(text), 0)|;
      && (BoundOf(text) == Bounded(bytes, pages) <==> bytes <= 196608 && pages <= 128)
      && (BoundOf(text).SourceBoundExceeded? <==> bytes > 196608)
      && (BoundOf(text).PageBoundExceeded? <==> bytes <= 196608 && pages > 128)
  {
    DecodeEncode(text);
  }
}
