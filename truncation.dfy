/**
 * The truncation policy applied by getTranslation before a text is sent to
 * the translation provider: the shorter of "the first two sentences" and
 * "the first 500 characters", with a visible marker when anything was cut.
 */
module Truncation {
  import opened Text

  /** The `[:500]` bound. */
  const MaxChars: nat := 500

  /** Appended when the excerpt is shorter than the input. */
  const Marker: string := " [...]"

  /** One piece of `re.split(r'(?<=[.?!])\s+', s)` together with the run of
      whitespace that the split removed after it (empty for the last piece). */
  datatype Segment = Segment(text: string, gap: string)

  /** The end of the run of whitespace that starts at `i`. */
  function GapEnd(s: string, i: nat): (j: nat)
    requires i <= |s|
    ensures i <= j <= |s|
    ensures forall k :: i <= k < j ==> IsSpace(s[k])
    ensures j == |s| || !IsSpace(s[j])
    decreases |s| - i
  {
    if i < |s| && IsSpace(s[i]) then GapEnd(s, i + 1) else i
  }

  /** The pattern matches at `i`: the character before is one of `.?!`
      and the character at `i` is whitespace. */
  predicate BoundaryAt(s: string, i: nat)
    requires i < |s|
  {
    0 < i && IsTerminator(s[i - 1]) && IsSpace(s[i])
  }

  /** The regex scan: the current piece started at `start`, and positions
      `start + 1 .. i - 1` have been tried without a match. */
  function SegmentsFrom(s: string, start: nat, i: nat): (segs: seq<Segment>)
    requires start <= i <= |s|
    ensures |segs| >= 1
    decreases |s| - i
  {
    if i == |s| then
      [Segment(s[start..], [])]
    else if BoundaryAt(s, i) then
      var j := GapEnd(s, i);
      [Segment(s[start..i], s[i..j])] + SegmentsFrom(s, j, j)
    else
      SegmentsFrom(s, start, i + 1)
  }

  /** `re.split(r'(?<=[.?!])\s+', s)`, each piece with the separator after it:
      at least one piece, and nothing after the last. */
  function Split(s: string): (segs: seq<Segment>)
    ensures |segs| >= 1
  {
    SegmentsFrom(s, 0, 0)
  }

  /** The list that `re.split` returns. */
  function Sentences(s: string): (pieces: seq<string>)
    ensures |pieces| == |Split(s)|
  {
    var segs := Split(s);
    seq(|segs|, k requires 0 <= k < |segs| => segs[k].text)
  }

  /** The pieces glued back with the separators that were removed. */
  function Concat(segs: seq<Segment>): string {
    if segs == [] then [] else segs[0].text + segs[0].gap + Concat(segs[1..])
  }

  /** A piece that the pattern ended: non-empty, ending in `.`, `?` or `!`,
      and followed by a non-empty run of whitespace. */
  ghost predicate Cut(seg: Segment) {
    seg.text != [] && IsTerminator(seg.text[|seg.text| - 1]) && seg.gap != [] && IsBlank(seg.gap)
  }

  /** A piece does not start with whitespace (so the run `\s+` before it was
      matched in full). */
  ghost predicate StartsClean(t: string) {
    t == [] || !IsSpace(t[0])
  }

  /** The pattern matches nowhere inside a piece. */
  ghost predicate NoBoundaryInside(t: string) {
    forall p :: 0 < p < |t| ==> !(IsTerminator(t[p - 1]) && IsSpace(t[p]))
  }

  /** The shape of a split: at least one piece, every piece but the last is
      cut by the pattern and the whitespace run after it is maximal, the last
      has nothing after it, and no piece contains a match. */
  ghost predicate WellSplit(segs: seq<Segment>) {
    && |segs| >= 1
    && segs[|segs| - 1].gap == []
    && (forall k :: 0 <= k < |segs| - 1 ==> Cut(segs[k]))
    && (forall k :: 0 < k < |segs| ==> StartsClean(segs[k].text))
    && (forall k :: 0 <= k < |segs| ==> NoBoundaryInside(segs[k].text))
  }

  lemma WellSplitCons(seg: Segment, rest: seq<Segment>)
    requires Cut(seg) && NoBoundaryInside(seg.text)
    requires WellSplit(rest) && StartsClean(rest[0].text)
    ensures WellSplit([seg] + rest)
  {
    var segs := [seg] + rest;
    forall k | 0 <= k < |segs| - 1
      ensures Cut(segs[k])
    {
      if k > 0 {
        assert segs[k] == rest[k - 1];
      }
    }
    forall k | 0 < k < |segs|
      ensures StartsClean(segs[k].text)
    {
      assert segs[k] == rest[k - 1];
    }
    forall k | 0 <= k < |segs|
      ensures NoBoundaryInside(segs[k].text)
    {
      if k > 0 {
        assert segs[k] == rest[k - 1];
      }
    }
  }

  /** The piece `s[start..i]` contains no match when none of the positions
      after `start` and before `i` is one. */
  lemma ScannedPiece(s: string, start: nat, i: nat)
    requires start <= i <= |s|
    requires forall p :: start < p < i ==> !BoundaryAt(s, p)
    ensures NoBoundaryInside(s[start..i])
  {
    var t := s[start..i];
    forall p | 0 < p < |t|
      ensures !(IsTerminator(t[p - 1]) && IsSpace(t[p]))
    {
      assert !BoundaryAt(s, start + p);
    }
  }

  /** The piece ended by a match at `i`, with the whitespace run after it. */
  lemma CutPiece(s: string, start: nat, i: nat)
    requires start <= i < |s|
    requires start == 0 || IsSpace(s[start - 1])
    requires forall p :: start < p < i ==> !BoundaryAt(s, p)
    requires BoundaryAt(s, i)
    ensures var j := GapEnd(s, i); var seg := Segment(s[start..i], s[i..j]);
      Cut(seg) && NoBoundaryInside(seg.text)
  {
    var j := GapEnd(s, i);
    var seg := Segment(s[start..i], s[i..j]);
    assert i > start;
    ScannedPiece(s, start, i);
    forall k | 0 <= k < |seg.gap| ensures IsSpace(seg.gap[k]) {
      assert seg.gap[k] == s[i + k];
    }
  }

  /** A scan that starts right after a maximal whitespace run yields a first
      piece that does not start with whitespace. */
  lemma RestStartsClean(s: string, j: nat)
    requires j <= |s| && (j == |s| || !IsSpace(s[j]))
    requires SegmentsFrom(s, j, j)[0].text <= s[j..]
    ensures StartsClean(SegmentsFrom(s, j, j)[0].text)
  {
    var t := SegmentsFrom(s, j, j)[0].text;
    if t != [] {
      assert t[0] == s[j..][0] == s[j];
    }
  }

  /** Gluing a split with one more piece in front. */
  lemma ConcatCons(seg: Segment, rest: seq<Segment>)
    ensures Concat([seg] + rest) == seg.text + seg.gap + Concat(rest)
  {
    assert ([seg] + rest)[1..] == rest;
  }

  /** The piece ended by a match, followed by the split of the rest, glues
      back to the text from the start of the piece. */
  lemma GlueStep(s: string, start: nat, i: nat, j: nat, seg: Segment, rest: seq<Segment>)
    requires start <= i <= j <= |s|
    requires seg == Segment(s[start..i], s[i..j]) && Concat(rest) == s[j..]
    ensures ([seg] + rest)[0].text <= s[start..]
    ensures Concat([seg] + rest) == s[start..]
  {
    ConcatCons(seg, rest);
    assert s[start..] == s[start..i] + s[i..j] + s[j..];
  }

  /** One step of the scan at a match: the piece before it, glued to the
      scan of the rest, has the shape of a split. */
  lemma MatchStep(s: string, start: nat, i: nat, j: nat, seg: Segment, rest: seq<Segment>)
    requires start <= i <= j <= |s| && (j == |s| || !IsSpace(s[j]))
    requires seg == Segment(s[start..i], s[i..j]) && Cut(seg) && NoBoundaryInside(seg.text)
    requires rest == SegmentsFrom(s, j, j)
    requires WellSplit(rest) && rest[0].text <= s[j..]
    ensures WellSplit([seg] + rest)
  {
    RestStartsClean(s, j);
    WellSplitCons(seg, rest);
  }

  /** The scan from `start`, `i` produces a correctly shaped split whose first
      piece starts at `start` and which glues back to `s[start..]`. */
  lemma {:induction false} SegmentsFromCharacterised(s: string, start: nat, i: nat)
    requires start <= i <= |s|
    requires start == 0 || IsSpace(s[start - 1])
    requires forall p :: start < p < i ==> !BoundaryAt(s, p)
    ensures WellSplit(SegmentsFrom(s, start, i))
    ensures SegmentsFrom(s, start, i)[0].text <= s[start..]
    ensures Concat(SegmentsFrom(s, start, i)) == s[start..]
    decreases |s| - i
  {
    var segs := SegmentsFrom(s, start, i);
    if i == |s| {
      ScannedPiece(s, start, i);
      assert Concat(segs) == s[start..] + [] + Concat([]);
    } else if BoundaryAt(s, i) {
      var j := GapEnd(s, i);
      var seg := Segment(s[start..i], s[i..j]);
      var rest := SegmentsFrom(s, j, j);
      assert segs == [seg] + rest;
      SegmentsFromCharacterised(s, j, j);
      CutPiece(s, start, i);
      MatchStep(s, start, i, j, seg, rest);
      GlueStep(s, start, i, j, seg, rest);
    } else {
      SegmentsFromCharacterised(s, start, i + 1);
    }
  }

  /** `re.split` is characterised: its pieces and separators glue back to the
      input, and the split has the shape the pattern dictates. */
  lemma SplitCharacterised(s: string)
    ensures WellSplit(Split(s))
    ensures Concat(Split(s)) == s
  {
    SegmentsFromCharacterised(s, 0, 0);
  }

  /** A text with no `.`, `?` or `!` is a single sentence. */
  lemma {:induction false} NoTerminatorOneSentence(s: string, start: nat, i: nat)
    requires start <= i <= |s|
    requires forall k :: 0 <= k < |s| ==> !IsTerminator(s[k])
    ensures SegmentsFrom(s, start, i) == [Segment(s[start..], [])]
    decreases |s| - i
  {
    if i < |s| {
      NoTerminatorOneSentence(s, start, i + 1);
    }
  }

  /** `text_to_translate[:500]`. */
  function Head(s: string): (h: string)
    ensures h <= s
    ensures |h| == if |s| <= MaxChars then |s| else MaxChars
  {
    if |s| <= MaxChars then s else s[..MaxChars]
  }

  /** The first two pieces joined with one space when there are more than two,
      otherwise the whole text. The join is strictly shorter than the text
      exactly when there are more than two pieces: at least one character of
      whitespace follows the second. */
  function TwoSentences(s: string): (r: string)
    ensures |Sentences(s)| <= 2 ==> r == s
    ensures |r| <= |s|
    ensures |r| < |s| <==> |Sentences(s)| > 2
  {
    var pieces := Sentences(s);
    if |pieces| > 2 then
      var segs := Split(s);
      SplitCharacterised(s);
      assert Cut(segs[0]) && Cut(segs[1]);
      ConcatCons(segs[0], segs[1..]);
      ConcatCons(segs[1], segs[2..]);
      assert segs == [segs[0]] + segs[1..] && segs[1..] == [segs[1]] + segs[2..];
      pieces[0] + " " + pieces[1]
    else
      s
  }

  /** The excerpt before any marker: the strictly shorter of the two-sentence
      join and the 500-character head, ties going to the head. */
  function Excerpt(s: string): (e: string)
    ensures e == Head(s) || e == TwoSentences(s)
    ensures |e| <= |Head(s)| && |e| <= |TwoSentences(s)|
    ensures |e| == |Head(s)| ==> e == Head(s)
    ensures e != Head(s) ==> |Sentences(s)| > 2
    ensures |e| <= MaxChars && |e| <= |s|
  {
    var two := TwoSentences(s);
    var head := Head(s);
    if |two| < |head| then two else head
  }

  /** The excerpt is shorter than the text exactly when the text is longer
      than 500 characters or has more than two sentences. */
  lemma ExcerptShorterIff(s: string)
    ensures |Excerpt(s)| < |s| <==> (|s| > MaxChars || |Sentences(s)| > 2)
  {
  }

  /** What getTranslation sends to the provider. */
  function Truncate(s: string): (r: string)
    ensures |r| <= MaxChars + |Marker|
    ensures |Excerpt(s)| < |s| ==> r == Excerpt(s) + Marker
    ensures |Excerpt(s)| >= |s| ==> r == s
  {
    var e := Excerpt(s);
    if |e| < |s| then e + Marker else e
  }

  /** A text of at most 500 characters and at most two sentences is sent as
      it is; any other text is sent as its excerpt followed by the marker. */
  lemma TruncateCases(s: string)
    ensures |s| <= MaxChars && |Sentences(s)| <= 2 ==> Truncate(s) == s
    ensures |s| > MaxChars || |Sentences(s)| > 2 ==>
      |Excerpt(s)| < |s| && Truncate(s) == Excerpt(s) + Marker
  {
    ExcerptShorterIff(s);
  }

  /** The marker can make the text sent longer than the input: 501 characters
      without a sentence break are sent as 500 characters plus the marker. */
  lemma MarkerCanLengthen()
    ensures var s := seq(501, _ => 'a'); |Truncate(s)| == 506 > |s|
  {
    var s := seq(501, _ => 'a');
    NoTerminatorOneSentence(s, 0, 0);
    assert |Sentences(s)| == 1;
  }
}
