/** The unified-diff writer of `diff_memory.c`: the hunk assembler
    (`output_unified_token_range`), the hunk flush with its `@@` header
    (`output_unified_flush_hunk`), the per-change callback
    (`output_unified_diff_modified`) and the driver
    (`svn_diff_mem_string_output_unified`).

    The output stream is modelled by the list of hunks written to it, in
    order; `RenderAll` gives the bytes that list stands for. */
module Unified {

  import opened Wrappers
  import opened Bytes
  import opened Tokens
  import opened Alignment

  /** `unified_output_e`: how a line appears in a hunk. */
  datatype LineKind = Context | Delete | Insert

  /** Token-source index of the unified baton: 0 is the original, 1 the
      modified text. */
  datatype Side = OriginalSide | ModifiedSide

  datatype Pair<T> = Pair(original: T, modified: T)

  /** One entry of the hunk being built: a prefixed line, or the
      "\ No newline at end of file" notice. */
  datatype HunkItem = Line(kind: LineKind, text: seq<Byte>) | NoNewlineNotice

  /** A hunk as written to the stream: the numbers of its `@@` header and
      its body. */
  datatype WrittenHunk = WrittenHunk(
    originalStart: int, originalLength: nat,
    modifiedStart: int, modifiedLength: nat,
    items: seq<HunkItem>)

  /** `output_baton_t`. `contextSize` is `SVN_DIFF__UNIFIED_CONTEXT_SIZE`
      and `eol` is `APR_EOL_STR`; `written` is what went to the stream. */
  datatype OutputBaton = OutputBaton(
    contextSize: nat,
    eol: seq<Byte>,
    original: SourceTokens,
    modified: SourceTokens,
    nextToken: nat,
    hunk: seq<HunkItem>,
    hunkLength: Pair<nat>,
    hunkStart: Pair<int>,
    written: seq<WrittenHunk>)

  /** The two versions of `output_unified_diff_modified` the model
      carries: the code as written, and the correction that starts the
      leading context of a change joining the open hunk at the cursor. */
  datatype Callback = AsWritten | Corrected

  /** The context size Subversion compiles in. */
  const UnifiedContextSize: nat := 3

  // ---------------------------------------------------------------------
  // Rendering

  function Prefix(k: LineKind): (r: seq<Byte>)
    ensures |r| == 1
  {
    match k
    case Context => Ascii(" ")
    case Delete => Ascii("-")
    case Insert => Ascii("+")
  }

  function NoNewlineText(eol: seq<Byte>): seq<Byte> {
    eol + Ascii("\\ No newline at end of file") + eol
  }

  function RenderItem(eol: seq<Byte>, it: HunkItem): seq<Byte> {
    match it
    case Line(k, t) => Prefix(k) + t
    case NoNewlineNotice => NoNewlineText(eol)
  }

  function RenderHunk(eol: seq<Byte>, items: seq<HunkItem>): seq<Byte> {
    if items == [] then []
    else RenderHunk(eol, items[..|items| - 1]) + RenderItem(eol, items[|items| - 1])
  }

  /** A hunk body renders to no bytes exactly when it has no items, so the
      emptiness test on the byte buffer is the emptiness of the item list. */
  lemma RenderHunkEmpty(eol: seq<Byte>, items: seq<HunkItem>)
    ensures RenderHunk(eol, items) == [] <==> items == []
  {
    if items != [] {
      var last := items[|items| - 1];
      assert |RenderItem(eol, last)| > 0 by {
        if last.NoNewlineNotice? {
          assert |Ascii("\\ No newline at end of file")| > 0;
        }
      }
    }
  }

  /** One side of a hunk header: the start, then `,length` unless the
      length is 1. */
  function RangeField(start: int, length: nat): seq<Byte> {
    Decimal(start) + (if length == 1 then [] else [Comma] + Decimal(length))
  }

  function HunkHeader(eol: seq<Byte>, w: WrittenHunk): seq<Byte> {
    Ascii("@@ -") + RangeField(w.originalStart, w.originalLength)
      + Ascii(" +") + RangeField(w.modifiedStart, w.modifiedLength)
      + Ascii(" @@") + eol
  }

  function RenderWritten(eol: seq<Byte>, w: WrittenHunk): seq<Byte> {
    HunkHeader(eol, w) + RenderHunk(eol, w.items)
  }

  function RenderAll(eol: seq<Byte>, ws: seq<WrittenHunk>): seq<Byte> {
    if ws == [] then []
    else RenderAll(eol, ws[..|ws| - 1]) + RenderWritten(eol, ws[|ws| - 1])
  }

  function FileHeader(originalHeader: seq<Byte>, modifiedHeader: seq<Byte>, eol: seq<Byte>): seq<Byte> {
    Ascii("--- ") + originalHeader + eol + Ascii("+++ ") + modifiedHeader + eol
  }

  /** Position of the first comma, if any. */
  function CommaIndex(f: seq<Byte>): (r: Option<nat>)
    ensures r.Some? ==> r.value < |f| && f[r.value] == Comma
                        && forall i :: 0 <= i < r.value ==> f[i] != Comma
    ensures r.None? ==> forall i :: 0 <= i < |f| ==> f[i] != Comma
    decreases |f|
  {
    if f == [] then None
    else if f[0] == Comma then Some(0)
    else match CommaIndex(f[1..])
         case None => None
         case Some(k) => Some(k + 1)
  }

  /** Reads a header field back: `start` alone means a length of 1. */
  function ParseRangeField(f: seq<Byte>): Option<(int, nat)> {
    match CommaIndex(f)
    case None =>
      (match ParseDecimal(f)
       case None => None
       case Some(s) => Some((s, 1)))
    case Some(k) =>
      (match (ParseDecimal(f[..k]), ParseDigits(f[k + 1..]))
       case (Some(s), Some(l)) => Some((s, l))
       case _ => None)
  }

  /** The header field carries start and length faithfully, and the
      `,length` part is present exactly when the length is not 1. */
  lemma RangeFieldRoundTrip(start: int, length: nat)
    ensures ParseRangeField(RangeField(start, length)) == Some((start, length))
    ensures (exists i :: 0 <= i < |RangeField(start, length)| && RangeField(start, length)[i] == Comma)
            <==> length != 1
  {
    var f := RangeField(start, length);
    var d := Decimal(start);
    DecimalRoundTrip(start);
    if length == 1 {
      assert f == d;
    } else {
      assert f[|d|] == Comma;
      var k := CommaIndex(f);
      assert k == Some(|d|);
      assert f[..|d|] == d;
      assert f[|d| + 1..] == Decimal(length);
      DigitsRoundTrip(length);
    }
  }

  // ---------------------------------------------------------------------
  // The lines a hunk shows of each side

  /** Whether a line of kind `k` belongs to side `s` of a hunk. */
  predicate OnSide(k: LineKind, s: Side) {
    k == Context || (k == Delete && s == OriginalSide) || (k == Insert && s == ModifiedSide)
  }

  /** The lines a hunk body shows for one side, in order. */
  function SideLines(items: seq<HunkItem>, s: Side): seq<seq<Byte>> {
    if items == [] then []
    else
      var last := items[|items| - 1];
      SideLines(items[..|items| - 1], s)
        + (if last.Line? && OnSide(last.kind, s) then [last.text] else [])
  }

  lemma {:induction false} SideLinesAppend(a: seq<HunkItem>, b: seq<HunkItem>, s: Side)
    ensures SideLines(a + b, s) == SideLines(a, s) + SideLines(b, s)
    decreases |b|
  {
    if b == [] {
      assert a + b == a;
    } else {
      var b' := b[..|b| - 1];
      assert (a + b)[..|a + b| - 1] == a + b';
      SideLinesAppend(a, b', s);
    }
  }

  /** `toks` as lines of kind `kind`. */
  function LinesOf(kind: LineKind, toks: seq<seq<Byte>>): (r: seq<HunkItem>)
    ensures |r| == |toks|
    ensures forall i :: 0 <= i < |r| ==> r[i] == Line(kind, toks[i])
  {
    seq(|toks|, i requires 0 <= i < |toks| => Line(kind, toks[i]))
  }

  lemma {:induction false} SideLinesOf(kind: LineKind, toks: seq<seq<Byte>>, s: Side)
    ensures SideLines(LinesOf(kind, toks), s) == if OnSide(kind, s) then toks else []
    decreases |toks|
  {
    if toks != [] {
      var t' := toks[..|toks| - 1];
      assert LinesOf(kind, toks)[..|toks| - 1] == LinesOf(kind, t');
      SideLinesOf(kind, t', s);
    }
  }

  lemma SideLinesNotice(s: Side)
    ensures SideLines([NoNewlineNotice], s) == []
  {
    assert [NoNewlineNotice][..0] == [];
  }

  /** The lines of kind `k` a hunk body shows, in order. */
  function KindLines(items: seq<HunkItem>, k: LineKind): seq<seq<Byte>> {
    if items == [] then []
    else
      var last := items[|items| - 1];
      KindLines(items[..|items| - 1], k) + (if last.Line? && last.kind == k then [last.text] else [])
  }

  lemma {:induction false} KindLinesAppend(a: seq<HunkItem>, b: seq<HunkItem>, k: LineKind)
    ensures KindLines(a + b, k) == KindLines(a, k) + KindLines(b, k)
    decreases |b|
  {
    if b == [] {
      assert a + b == a;
    } else {
      var b' := b[..|b| - 1];
      assert (a + b)[..|a + b| - 1] == a + b';
      KindLinesAppend(a, b', k);
    }
  }

  lemma {:induction false} KindLinesOf(kind: LineKind, toks: seq<seq<Byte>>, k: LineKind)
    ensures KindLines(LinesOf(kind, toks), k) == if kind == k then toks else []
    decreases |toks|
  {
    if toks != [] {
      var t' := toks[..|toks| - 1];
      assert LinesOf(kind, toks)[..|toks| - 1] == LinesOf(kind, t');
      KindLinesOf(kind, t', k);
    }
  }

  lemma KindLinesNotice(k: LineKind)
    ensures KindLines([NoNewlineNotice], k) == []
  {
    assert [NoNewlineNotice][..0] == [];
  }

  /** The lines of kind `k` across written hunks, in the order written. */
  function WrittenLines(ws: seq<WrittenHunk>, k: LineKind): seq<seq<Byte>> {
    if ws == [] then [] else WrittenLines(ws[..|ws| - 1], k) + KindLines(ws[|ws| - 1].items, k)
  }

  lemma WrittenLinesSnoc(ws: seq<WrittenHunk>, w: WrittenHunk, k: LineKind)
    ensures WrittenLines(ws + [w], k) == WrittenLines(ws, k) + KindLines(w.items, k)
  {
    assert (ws + [w])[..|ws|] == ws;
  }

  /** The lines of kind `k` the writer has shown so far: those of the
      written hunks, then those of the open hunk. */
  function Shown(b: OutputBaton, k: LineKind): seq<seq<Byte>> {
    WrittenLines(b.written, k) + KindLines(b.hunk, k)
  }

  lemma JoinAssoc<T>(a: seq<T>, b: seq<T>, c: seq<T>)
    ensures a + b + c == a + (b + c)
  {
  }

  /** Equal written hunks and an open hunk grown by `x` in kind `k`. */
  lemma ShownGrows(prev: OutputBaton, next: OutputBaton, k: LineKind, x: seq<seq<Byte>>)
    requires next.written == prev.written
    requires KindLines(next.hunk, k) == KindLines(prev.hunk, k) + x
    ensures Shown(next, k) == Shown(prev, k) + x
  {
    JoinAssoc(WrittenLines(prev.written, k), KindLines(prev.hunk, k), x);
  }

  /** Rank of a line kind in the order a change is written. */
  function Rank(k: LineKind): nat {
    match k
    case Context => 0
    case Delete => 1
    case Insert => 2
  }

  /** Within `items`, context lines come before deleted lines, which come
      before inserted lines. */
  predicate KindsInOrder(items: seq<HunkItem>) {
    forall i, j :: 0 <= i < j < |items| && items[i].Line? && items[j].Line? ==>
      Rank(items[i].kind) <= Rank(items[j].kind)
  }

  /** Every item of `items` past `from` is a line of kind `kind` or the
      no-newline notice. */
  predicate AddedOfKind(items: seq<HunkItem>, from: nat, kind: LineKind) {
    forall i :: from <= i < |items| ==> items[i].Line? ==> items[i].kind == kind
  }

  // ---------------------------------------------------------------------
  // output_unified_token_range

  function Source(b: OutputBaton, side: Side): SourceTokens {
    if side == OriginalSide then b.original else b.modified
  }

  /** The first token actually written: context from the original never
      starts before the cursor. */
  function RangeFrom(b: OutputBaton, side: Side, first: nat): nat {
    if side == OriginalSide && first < b.nextToken then b.nextToken else first
  }

  /** The end of the range, clamped to the token count. */
  function RangeEnd(src: SourceTokens, pastLast: int): int {
    if pastLast > |src.tokens| then |src.tokens| else pastLast
  }

  function Bump(len: Pair<nat>, kind: LineKind, n: nat): (r: Pair<nat>) {
    Pair(len.original + (if OnSide(kind, OriginalSide) then n else 0),
         len.modified + (if OnSide(kind, ModifiedSide) then n else 0))
  }

  /** `output_unified_token_range`: append the tokens `first` up to
      `pastLast` of one source to the hunk as lines of kind `kind`. Only
      the hunk, its lengths and the cursor change; the hunk only grows and
      the cursor only moves forward. `TokenRangeEffect` says what is added. */
  function TokenRange(b: OutputBaton, side: Side, kind: LineKind, first: nat, pastLast: int): (r: OutputBaton)
    ensures r == b.(hunk := r.hunk, hunkLength := r.hunkLength, nextToken := r.nextToken)
    ensures b.hunk <= r.hunk && b.nextToken <= r.nextToken
    ensures side == ModifiedSide ==> r.nextToken == b.nextToken
  {
    var src := Source(b, side);
    var from := RangeFrom(b, side, first);
    var past := RangeEnd(src, pastLast);
    if from >= past then b
    else
      var lines := LinesOf(kind, src.tokens[from..past]);
      var notice := if past == |src.tokens| && src.endsWithoutEol then [NoNewlineNotice] else [];
      b.(hunk := b.hunk + lines + notice,
         hunkLength := Bump(b.hunkLength, kind, past - from),
         nextToken := if side == OriginalSide then past else b.nextToken)
  }

  /** What `TokenRange` adds: nothing when the clamped range is empty;
      otherwise exactly the tokens of the range as lines of the requested
      kind, each counted on the sides it belongs to, followed by the
      no-newline notice exactly when the range reaches the end of a text
      that has no final terminator, with the cursor moved to the range's
      end on the original side. */
  lemma TokenRangeEffect(b: OutputBaton, side: Side, kind: LineKind, first: nat, pastLast: int)
    ensures var r := TokenRange(b, side, kind, first, pastLast);
            var src := Source(b, side);
            var from := RangeFrom(b, side, first);
            var past := RangeEnd(src, pastLast);
            if from >= past then r == b
            else
              && b.hunk < r.hunk
              && SideLines(r.hunk, OriginalSide)
                 == SideLines(b.hunk, OriginalSide)
                    + (if OnSide(kind, OriginalSide) then src.tokens[from..past] else [])
              && SideLines(r.hunk, ModifiedSide)
                 == SideLines(b.hunk, ModifiedSide)
                    + (if OnSide(kind, ModifiedSide) then src.tokens[from..past] else [])
              && r.hunkLength.original
                 == b.hunkLength.original + (if kind != Insert then past - from else 0)
              && r.hunkLength.modified
                 == b.hunkLength.modified + (if kind != Delete then past - from else 0)
              && (r.hunk[|r.hunk| - 1] == NoNewlineNotice
                  <==> past == |src.tokens| && src.endsWithoutEol)
              && r.nextToken == (if side == OriginalSide then past else b.nextToken)
  {
    var src := Source(b, side);
    var from := RangeFrom(b, side, first);
    var past := RangeEnd(src, pastLast);
    if from < past {
      var toks := src.tokens[from..past];
      var notice := if past == |src.tokens| && src.endsWithoutEol then [NoNewlineNotice] else [];
      var r := TokenRange(b, side, kind, first, pastLast);
      assert r.hunk == b.hunk + LinesOf(kind, toks) + notice;
      assert r.hunkLength == Bump(b.hunkLength, kind, past - from);
      hide TokenRange;
      AppendedLines(b.hunk, kind, toks, notice, OriginalSide);
      AppendedLines(b.hunk, kind, toks, notice, ModifiedSide);
    }
  }

  /** Lines of one kind and an optional notice appended to a hunk: the
      sides grow by the lines they show, and the last item is the notice
      exactly when there is one. */
  lemma AppendedLines(h: seq<HunkItem>, kind: LineKind, toks: seq<seq<Byte>>, notice: seq<HunkItem>, s: Side)
    requires toks != [] && (notice == [] || notice == [NoNewlineNotice])
    ensures var h' := h + LinesOf(kind, toks) + notice;
            && h < h'
            && SideLines(h', s) == SideLines(h, s) + (if OnSide(kind, s) then toks else [])
            && (h'[|h'| - 1] == NoNewlineNotice <==> notice != [])
  {
    var lines := LinesOf(kind, toks);
    var h' := h + lines + notice;
    assert h'[|h'| - 1] == if notice == [] then lines[|lines| - 1] else NoNewlineNotice;
    assert h' == h + (lines + notice);
    SideLinesAppend(h, lines, s);
    SideLinesAppend(h + lines, notice, s);
    SideLinesOf(kind, toks, s);
    SideLinesNotice(s);
  }

  /** What `TokenRange` adds to the lines of one kind: the range's tokens
      when the range is of that kind and not empty after clamping, and
      nothing otherwise; a hunk that was empty exactly when its counts
      were zero stays so. */
  lemma TokenRangeShown(b: OutputBaton, side: Side, kind: LineKind, first: nat, pastLast: int, k: LineKind)
    ensures var r := TokenRange(b, side, kind, first, pastLast);
            var src := Source(b, side);
            var from := RangeFrom(b, side, first);
            var past := RangeEnd(src, pastLast);
            && KindLines(r.hunk, k)
               == KindLines(b.hunk, k) + (if kind == k && from < past then src.tokens[from..past] else [])
            && ((b.hunk == [] <==> b.hunkLength == Pair(0, 0)) ==> (r.hunk == [] <==> r.hunkLength == Pair(0, 0)))
  {
    var src := Source(b, side);
    var from := RangeFrom(b, side, first);
    var past := RangeEnd(src, pastLast);
    if from < past {
      var toks := src.tokens[from..past];
      var notice := if past == |src.tokens| && src.endsWithoutEol then [NoNewlineNotice] else [];
      var r := TokenRange(b, side, kind, first, pastLast);
      assert r.hunk == b.hunk + LinesOf(kind, toks) + notice;
      assert r.hunkLength == Bump(b.hunkLength, kind, past - from);
      hide TokenRange;
      AppendedKindLines(b.hunk, kind, toks, notice, k);
    } else {
      assert KindLines(b.hunk, k) + [] == KindLines(b.hunk, k);
    }
  }

  lemma AppendedKindLines(h: seq<HunkItem>, kind: LineKind, toks: seq<seq<Byte>>, notice: seq<HunkItem>, k: LineKind)
    requires toks != [] && (notice == [] || notice == [NoNewlineNotice])
    ensures var h' := h + LinesOf(kind, toks) + notice;
            && h' != []
            && KindLines(h', k) == KindLines(h, k) + (if kind == k then toks else [])
  {
    var lines := LinesOf(kind, toks);
    KindLinesAppend(h, lines, k);
    KindLinesAppend(h + lines, notice, k);
    KindLinesOf(kind, toks, k);
    KindLinesNotice(k);
    assert KindLines([], k) == [];
  }

  // ---------------------------------------------------------------------
  // output_unified_flush_hunk

  /** The original lines the flush adds as trailing context: from the
      cursor up to `contextSize` lines past the hunk, within the text. */
  function TrailingContext(b: OutputBaton): seq<seq<Byte>> {
    var past := RangeEnd(b.original, b.hunkStart.original + b.hunkLength.original + b.contextSize);
    if b.nextToken < past then b.original.tokens[b.nextToken..past] else []
  }

  /** Unified line numbers are 1-based, except for the start of an empty
      side. */
  function OneBased(start: int, length: nat): int {
    if length > 0 then start + 1 else start
  }

  /** `output_unified_flush_hunk`: add trailing context, then write the
      header and the body, and start a new empty hunk. An empty hunk writes
      nothing. `FlushEffect` says what is written. */
  function Flush(b: OutputBaton): (r: OutputBaton)
    ensures b.hunk == [] ==> r == b
    ensures b.hunk != [] ==>
      && r == b.(hunk := [], hunkLength := Pair(0, 0), hunkStart := r.hunkStart,
                 nextToken := r.nextToken, written := r.written)
      && |r.written| == |b.written| + 1
      && r.written[..|b.written|] == b.written
    ensures b.nextToken <= r.nextToken
  {
    if b.hunk == [] then b
    else
      var t := TokenRange(b, OriginalSide, Context, b.nextToken,
                          b.hunkStart.original + b.hunkLength.original + b.contextSize);
      var w := WrittenHunk(OneBased(t.hunkStart.original, t.hunkLength.original), t.hunkLength.original,
                           OneBased(t.hunkStart.modified, t.hunkLength.modified), t.hunkLength.modified,
                           t.hunk);
      assert (t.written + [w])[..|b.written|] == b.written;
      t.(hunk := [], hunkLength := Pair(0, 0),
         hunkStart := Pair(w.originalStart, w.modifiedStart),
         written := t.written + [w])
  }

  /** The hunk a flush writes: the open hunk followed by the trailing
      context, counted on both sides, with each start made 1-based exactly
      when that side is non-empty; the cursor moves past the context. */
  lemma FlushEffect(b: OutputBaton)
    requires b.hunk != []
    ensures var r := Flush(b);
            var ctx := TrailingContext(b);
            var w := r.written[|b.written|];
            && r.nextToken == b.nextToken + |ctx|
            && b.hunk <= w.items
            && SideLines(w.items, OriginalSide) == SideLines(b.hunk, OriginalSide) + ctx
            && SideLines(w.items, ModifiedSide) == SideLines(b.hunk, ModifiedSide) + ctx
            && w.originalLength == b.hunkLength.original + |ctx|
            && w.modifiedLength == b.hunkLength.modified + |ctx|
            && w.originalStart == OneBased(b.hunkStart.original, w.originalLength)
            && w.modifiedStart == OneBased(b.hunkStart.modified, w.modifiedLength)
            && r.hunkStart == Pair(w.originalStart, w.modifiedStart)
  {
    hide TokenRange;
    TokenRangeEffect(b, OriginalSide, Context, b.nextToken,
                     b.hunkStart.original + b.hunkLength.original + b.contextSize);
  }

  // ---------------------------------------------------------------------
  // output_unified_diff_modified

  /** Where the leading context of a change starts: `contextSize` lines
      before it, or at the top of the text when the change is nearer to
      the top than that. */
  function TargetOriginal(b: OutputBaton, r: DiffRange): (t: nat)
    ensures t <= r.originalStart
    ensures r.originalStart - t <= b.contextSize
    ensures r.originalStart >= b.contextSize ==> t == r.originalStart - b.contextSize
    ensures r.originalStart < b.contextSize ==> t == 0
  {
    if r.originalStart < b.contextSize then 0 else r.originalStart - b.contextSize
  }

  /** The first half of `output_unified_diff_modified`: flush the hunk when
      the change is too far from it to share context, and anchor a new
      hunk at the change's leading context. */
  function PrepareHunk(b: OutputBaton, r: DiffRange): (p: OutputBaton)
    ensures var targ := TargetOriginal(b, r);
            && p.original == b.original && p.modified == b.modified
            && p.contextSize == b.contextSize && p.eol == b.eol
            && (b.nextToken + b.contextSize < targ ==>
                  p.hunk == [] && p.written == Flush(b).written && p.nextToken == Flush(b).nextToken)
            && (b.nextToken + b.contextSize >= targ ==>
                  p.hunk == b.hunk && p.written == b.written && p.nextToken == b.nextToken
                  && p.hunkLength == b.hunkLength)
            && (p.hunkLength == Pair(0, 0) ==>
                  p.hunkStart == Pair(targ, r.modifiedStart + targ - r.originalStart))
            && (p.hunkLength != Pair(0, 0) ==> p.hunkStart == b.hunkStart && p.hunkLength == b.hunkLength)
  {
    var targ := TargetOriginal(b, r);
    var f := if b.nextToken + b.contextSize < targ then Flush(b) else b;
    if f.hunkLength == Pair(0, 0) then
      f.(hunkStart := Pair(targ, r.modifiedStart + targ - r.originalStart))
    else f
  }

  /** The second half: leading context, deleted lines, inserted lines. */
  function EmitChange(p: OutputBaton, contextFrom: nat, r: DiffRange): (res: OutputBaton)
    ensures res.original == p.original && res.modified == p.modified
    ensures res.contextSize == p.contextSize && res.eol == p.eol
    ensures res.written == p.written && res.hunkStart == p.hunkStart
    ensures p.hunk <= res.hunk
  {
    var c := TokenRange(p, OriginalSide, Context, contextFrom, r.originalStart);
    var d := TokenRange(c, OriginalSide, Delete, r.originalStart, r.originalStart + r.originalLength);
    TokenRange(d, ModifiedSide, Insert, r.modifiedStart, r.modifiedStart + r.modifiedLength)
  }

  /** A change adds its context lines, then its deleted lines, then its
      inserted lines. */
  lemma EmitChangeInOrder(p: OutputBaton, contextFrom: nat, r: DiffRange)
    ensures KindsInOrder(EmitChange(p, contextFrom, r).hunk[|p.hunk|..])
  {
    hide TokenRange, EmitChange;
    EmitChangeSteps(p, contextFrom, r);
    var c := TokenRange(p, OriginalSide, Context, contextFrom, r.originalStart);
    var d := TokenRange(c, OriginalSide, Delete, r.originalStart, r.originalStart + r.originalLength);
    var e := TokenRange(d, ModifiedSide, Insert, r.modifiedStart, r.modifiedStart + r.modifiedLength);
    TokenRangeAddsKind(p, OriginalSide, Context, contextFrom, r.originalStart);
    TokenRangeAddsKind(c, OriginalSide, Delete, r.originalStart, r.originalStart + r.originalLength);
    TokenRangeAddsKind(d, ModifiedSide, Insert, r.modifiedStart, r.modifiedStart + r.modifiedLength);
    SegmentsInOrder(p.hunk, c.hunk, d.hunk, e.hunk);
  }

  lemma TokenRangeAddsKind(b: OutputBaton, side: Side, kind: LineKind, first: nat, pastLast: int)
    ensures AddedOfKind(TokenRange(b, side, kind, first, pastLast).hunk, |b.hunk|, kind)
  {
    var src := Source(b, side);
    var from := RangeFrom(b, side, first);
    var past := RangeEnd(src, pastLast);
    if from < past {
      var lines := LinesOf(kind, src.tokens[from..past]);
      var notice := if past == |src.tokens| && src.endsWithoutEol then [NoNewlineNotice] else [];
      var h := TokenRange(b, side, kind, first, pastLast).hunk;
      assert h == b.hunk + lines + notice;
      forall i | |b.hunk| <= i < |h| && h[i].Line?
        ensures h[i].kind == kind
      {
        if i < |b.hunk| + |lines| {
          assert h[i] == lines[i - |b.hunk|];
        }
      }
    }
  }

  /** Three growths of a hunk by context, deleted and inserted lines
      leave the added part in that order. */
  lemma SegmentsInOrder(p: seq<HunkItem>, c: seq<HunkItem>, d: seq<HunkItem>, e: seq<HunkItem>)
    requires p <= c <= d <= e
    requires AddedOfKind(c, |p|, Context)
    requires AddedOfKind(d, |c|, Delete)
    requires AddedOfKind(e, |d|, Insert)
    ensures KindsInOrder(e[|p|..])
  {
    forall i | |p| <= i < |e| && e[i].Line?
      ensures Rank(e[i].kind) == (if i < |c| then 0 else if i < |d| then 1 else 2)
    {
      if i < |c| {
        assert e[i] == c[i];
      } else if i < |d| {
        assert e[i] == d[i];
      }
    }
    var x := e[|p|..];
    forall i, j | 0 <= i < j < |x| && x[i].Line? && x[j].Line?
      ensures Rank(x[i].kind) <= Rank(x[j].kind)
    {
      assert x[i] == e[|p| + i] && x[j] == e[|p| + j];
    }
  }

  /** `output_unified_diff_modified` exactly as written: the leading
      context is asked for from `TargetOriginal` even when the change joins
      the open hunk, so the original lines between the cursor and that
      point are never written. Each change's deleted and inserted lines are
      still shown in full. */
  function OutputDiffModifiedAsWritten(b: OutputBaton, r: DiffRange): (res: OutputBaton)
    ensures res.original == b.original && res.modified == b.modified
    ensures res.contextSize == b.contextSize && res.eol == b.eol
    ensures PrepareHunk(b, r).hunk <= res.hunk
    ensures PrepareHunk(b, r).written == res.written
    ensures StepReady(b, r) ==> WritesChange(b, r, res)
  {
    ChangeStep(b, r, TargetOriginal(b, r));
    EmitChange(PrepareHunk(b, r), TargetOriginal(b, r), r)
  }

  /** `output_unified_diff_modified` with the leading context of a change
      that joins the open hunk starting at the cursor, so the hunk stays a
      contiguous run of the original. */
  function OutputDiffModified(b: OutputBaton, r: DiffRange): (res: OutputBaton)
    ensures res.original == b.original && res.modified == b.modified
    ensures res.contextSize == b.contextSize && res.eol == b.eol
    ensures PrepareHunk(b, r).hunk <= res.hunk
    ensures PrepareHunk(b, r).written == res.written
    ensures StepReady(b, r) ==> WritesChange(b, r, res)
  {
    var p := PrepareHunk(b, r);
    var cf := if p.hunk != [] then p.nextToken else TargetOriginal(b, r);
    ChangeStep(b, r, cf);
    EmitChange(p, cf, r)
  }

  /** The callback the driver is given. */
  function DiffModifiedBy(cb: Callback, b: OutputBaton, r: DiffRange): (res: OutputBaton)
    ensures res.original == b.original && res.modified == b.modified
    ensures res.contextSize == b.contextSize && res.eol == b.eol
    ensures StepReady(b, r) ==> WritesChange(b, r, res)
  {
    match cb
    case AsWritten => OutputDiffModifiedAsWritten(b, r)
    case Corrected => OutputDiffModified(b, r)
  }

  /** Each change either callback writes lists its context, then its
      deleted lines, then its inserted lines. */
  lemma DiffModifiedInOrder(cb: Callback, b: OutputBaton, r: DiffRange)
    ensures KindsInOrder(DiffModifiedBy(cb, b, r).hunk[|PrepareHunk(b, r).hunk|..])
  {
    var p := PrepareHunk(b, r);
    if cb == AsWritten {
      EmitChangeInOrder(p, TargetOriginal(b, r), r);
    } else {
      EmitChangeInOrder(p, if p.hunk != [] then p.nextToken else TargetOriginal(b, r), r);
    }
  }

  // ---------------------------------------------------------------------
  // The driver

  /** `svn_diff_output` with the unified vtable: only modified ranges have
      a callback, so every other range leaves the baton as it is. */
  function Pass(cb: Callback, b: OutputBaton, diff: seq<DiffRange>): (r: OutputBaton)
    ensures r.original == b.original && r.modified == b.modified
    ensures r.contextSize == b.contextSize && r.eol == b.eol
    ensures (forall i :: 0 <= i < |diff| ==> diff[i].kind != DiffModified) ==> r == b
    decreases |diff|
  {
    if diff == [] then b
    else
      var b' := if diff[0].kind == DiffModified then DiffModifiedBy(cb, b, diff[0]) else b;
      assert forall i :: 0 <= i < |diff[1..]| ==> diff[1..][i] == diff[i + 1];
      Pass(cb, b', diff[1..])
  }

  function InitialBaton(contextSize: nat, eol: seq<Byte>, original: seq<Byte>, modified: seq<Byte>): OutputBaton {
    OutputBaton(contextSize, eol, Tokenize(original), Tokenize(modified), 0, [],
                Pair(0, 0), Pair(0, 0), [])
  }

  /** The hunks the writer puts on the stream with callback `cb`: the pass
      over the alignment, then the final flush. An alignment without a
      modified range writes no hunk. */
  function UnifiedHunks(cb: Callback, contextSize: nat, eol: seq<Byte>, diff: seq<DiffRange>,
                        original: seq<Byte>, modified: seq<Byte>): (ws: seq<WrittenHunk>)
    ensures (forall i :: 0 <= i < |diff| ==> diff[i].kind != DiffModified) ==> ws == []
  {
    Flush(Pass(cb, InitialBaton(contextSize, eol, original, modified), diff)).written
  }

  /** `svn_diff_mem_string_output_unified`, with the callback as written:
      nothing at all when the diff has no changes; otherwise the two file
      header lines and the hunks. */
  function OutputUnified(contextSize: nat, eol: seq<Byte>, diff: seq<DiffRange>,
                         originalHeader: seq<Byte>, modifiedHeader: seq<Byte>,
                         original: seq<Byte>, modified: seq<Byte>): (out: seq<Byte>)
    ensures !ContainsDiffs(diff) ==> out == []
    ensures ContainsDiffs(diff) ==>
      var h := FileHeader(originalHeader, modifiedHeader, eol);
      && |out| >= |h| && out[..|h|] == h
      && out[|h|..] == RenderAll(eol, UnifiedHunks(AsWritten, contextSize, eol, diff, original, modified))
  {
    if !ContainsDiffs(diff) then []
    else
      var h := FileHeader(originalHeader, modifiedHeader, eol);
      var out := h + RenderAll(eol, UnifiedHunks(AsWritten, contextSize, eol, diff, original, modified));
      assert out[..|h|] == h;
      out
  }

  // ---------------------------------------------------------------------
  // What each change writes, under either callback

  /** The state both callbacks keep between changes: the original lines
      the hunk counts end at or before the cursor, and the hunk is empty
      exactly when its counts are zero. */
  ghost predicate BehindCursor(b: OutputBaton) {
    && b.hunkStart.original + b.hunkLength.original <= b.nextToken
    && (b.hunk == [] <==> b.hunkLength == Pair(0, 0))
  }

  /** A change the callback can be given: the state is behind the cursor,
      the context is at least one line, and the change lies within both
      texts at or after the cursor. */
  ghost predicate StepReady(b: OutputBaton, r: DiffRange) {
    && BehindCursor(b) && b.contextSize > 0
    && b.nextToken <= r.originalStart
    && r.originalStart + r.originalLength <= |b.original.tokens|
    && r.modifiedStart + r.modifiedLength <= |b.modified.tokens|
  }

  /** After the change: the deleted lines shown are those shown before
      followed by the original lines the change replaces, the inserted
      lines likewise with the modified lines it brings, the cursor is not
      past the change, and the state is still behind the cursor. */
  ghost predicate WritesChange(b: OutputBaton, r: DiffRange, res: OutputBaton) {
    && r.originalStart + r.originalLength <= |b.original.tokens|
    && r.modifiedStart + r.modifiedLength <= |b.modified.tokens|
    && BehindCursor(res)
    && res.nextToken <= r.originalStart + r.originalLength
    && Shown(res, Delete)
       == Shown(b, Delete) + b.original.tokens[r.originalStart..r.originalStart + r.originalLength]
    && Shown(res, Insert)
       == Shown(b, Insert) + b.modified.tokens[r.modifiedStart..r.modifiedStart + r.modifiedLength]
  }

  /** A flush moves the open hunk to the written ones and adds only
      context, so the deleted and inserted lines shown stay the same; the
      hunk is empty afterwards. */
  lemma FlushShown(b: OutputBaton, k: LineKind)
    requires k != Context
    ensures Shown(Flush(b), k) == Shown(b, k)
    ensures Flush(b).hunk == []
  {
    hide TokenRange, Flush, Shown, WrittenLines, KindLines;
    if b.hunk != [] {
      var past := b.hunkStart.original + b.hunkLength.original + b.contextSize;
      TokenRangeShown(b, OriginalSide, Context, b.nextToken, past, k);
      FlushWritesHunk(b);
      var f := Flush(b);
      var w := f.written[|b.written|];
      WrittenLinesSnoc(b.written, w, k);
      ShownParts(b, k);
      ShownParts(f, k);
      KindLinesEmpty(k);
      var x := WrittenLines(b.written, k) + KindLines(b.hunk, k);
      assert x + [] == x;
      assert WrittenLines(f.written, k) == x;
    }
  }

  lemma ShownParts(b: OutputBaton, k: LineKind)
    ensures Shown(b, k) == WrittenLines(b.written, k) + KindLines(b.hunk, k)
  {
  }

  lemma KindLinesEmpty(k: LineKind)
    ensures KindLines([], k) == []
  {
  }

  /** A flush of an open hunk appends one hunk, whose items are the open
      hunk with its trailing context. */
  lemma FlushWritesHunk(b: OutputBaton)
    requires b.hunk != []
    ensures var f := Flush(b);
            && f.hunk == []
            && f.written == b.written + [f.written[|b.written|]]
            && f.written[|b.written|].items
               == TokenRange(b, OriginalSide, Context, b.nextToken,
                             b.hunkStart.original + b.hunkLength.original + b.contextSize).hunk
  {
    var f := Flush(b);
    assert f.written == f.written[..|b.written|] + [f.written[|b.written|]];
  }

  /** Behind the cursor, a flush moves the cursor by at most the context. */
  lemma FlushCursor(b: OutputBaton)
    requires b.hunkStart.original + b.hunkLength.original <= b.nextToken
    ensures Flush(b).nextToken <= b.nextToken + b.contextSize
  {
    if b.hunk != [] {
      FlushEffect(b);
    }
  }

  /** `PrepareHunk` keeps the lines shown; an open hunk stays behind the
      cursor, and a closed one is anchored at the context target. */
  lemma PrepareStep(b: OutputBaton, r: DiffRange, k: LineKind)
    requires k != Context
    requires BehindCursor(b) && b.nextToken <= r.originalStart
    ensures var p := PrepareHunk(b, r);
            && Shown(p, k) == Shown(b, k)
            && p.nextToken <= r.originalStart
            && (p.hunk == [] <==> p.hunkLength == Pair(0, 0))
            && (p.hunk != [] ==> p.hunkStart.original + p.hunkLength.original <= p.nextToken)
            && (p.hunk == [] ==> p.hunkStart.original == TargetOriginal(b, r))
  {
    var targ := TargetOriginal(b, r);
    if b.nextToken + b.contextSize < targ {
      FlushShown(b, k);
      FlushCursor(b);
    }
  }

  /** What `TokenRange` does to the counts and the cursor. */
  lemma TokenRangeCounts(b: OutputBaton, side: Side, kind: LineKind, first: nat, pastLast: int)
    ensures var r := TokenRange(b, side, kind, first, pastLast);
            var from := RangeFrom(b, side, first);
            var past := RangeEnd(Source(b, side), pastLast);
            && (from >= past ==> r == b)
            && (from < past ==>
                  && r.hunkLength == Bump(b.hunkLength, kind, past - from)
                  && r.nextToken == (if side == OriginalSide then past else b.nextToken))
  {
  }

  /** The leading context keeps the other kinds' lines and leaves the
      state behind the cursor, with the cursor at most at the change. */
  lemma ContextStep(p: OutputBaton, cf: nat, os: nat, k: LineKind)
    requires k != Context
    requires p.nextToken <= os <= |p.original.tokens|
    requires p.hunk == [] <==> p.hunkLength == Pair(0, 0)
    requires p.hunkStart.original + p.hunkLength.original <= RangeFrom(p, OriginalSide, cf)
    requires RangeFrom(p, OriginalSide, cf) >= os ==>
               p.hunkStart.original + p.hunkLength.original <= p.nextToken
    ensures var c := TokenRange(p, OriginalSide, Context, cf, os);
            && BehindCursor(c) && c.nextToken <= os
            && c.original == p.original && c.modified == p.modified
            && Shown(c, k) == Shown(p, k)
  {
    hide TokenRange;
    TokenRangeCounts(p, OriginalSide, Context, cf, os);
    TokenRangeShown(p, OriginalSide, Context, cf, os, k);
    var c := TokenRange(p, OriginalSide, Context, cf, os);
    ShownGrows(p, c, k, []);
  }

  /** The deleted lines of a change are the original lines `os` up to
      `os + ol`. */
  lemma DeleteStep(c: OutputBaton, os: nat, ol: nat, k: LineKind)
    requires k != Context
    requires BehindCursor(c) && c.nextToken <= os && os + ol <= |c.original.tokens|
    ensures var d := TokenRange(c, OriginalSide, Delete, os, os + ol);
            && BehindCursor(d) && d.nextToken <= os + ol
            && d.original == c.original && d.modified == c.modified
            && Shown(d, k) == Shown(c, k) + (if k == Delete then c.original.tokens[os..os + ol] else [])
  {
    hide TokenRange;
    TokenRangeCounts(c, OriginalSide, Delete, os, os + ol);
    TokenRangeShown(c, OriginalSide, Delete, os, os + ol, k);
    var d := TokenRange(c, OriginalSide, Delete, os, os + ol);
    ShownGrows(c, d, k, if k == Delete then c.original.tokens[os..os + ol] else []);
  }

  /** The inserted lines of a change are the modified lines `ms` up to
      `ms + ml`; the cursor does not move. */
  lemma InsertStep(d: OutputBaton, ms: nat, ml: nat, k: LineKind)
    requires k != Context
    requires BehindCursor(d) && ms + ml <= |d.modified.tokens|
    ensures var e := TokenRange(d, ModifiedSide, Insert, ms, ms + ml);
            && BehindCursor(e) && e.nextToken == d.nextToken
            && e.original == d.original && e.modified == d.modified
            && Shown(e, k) == Shown(d, k) + (if k == Insert then d.modified.tokens[ms..ms + ml] else [])
  {
    hide TokenRange;
    TokenRangeCounts(d, ModifiedSide, Insert, ms, ms + ml);
    TokenRangeShown(d, ModifiedSide, Insert, ms, ms + ml, k);
    var e := TokenRange(d, ModifiedSide, Insert, ms, ms + ml);
    ShownGrows(d, e, k, if k == Insert then d.modified.tokens[ms..ms + ml] else []);
  }

  /** The lines of kind `k` one modified range replaces or brings. */
  function ChangeOf(r: DiffRange, o: seq<seq<Byte>>, m: seq<seq<Byte>>, k: LineKind): seq<seq<Byte>> {
    if k == Delete && r.originalStart + r.originalLength <= |o| then
      o[r.originalStart..r.originalStart + r.originalLength]
    else if k == Insert && r.modifiedStart + r.modifiedLength <= |m| then
      m[r.modifiedStart..r.modifiedStart + r.modifiedLength]
    else []
  }

  /** The three token ranges of a change, from a prepared state. */
  lemma EmitStep(p: OutputBaton, cf: nat, r: DiffRange, k: LineKind)
    requires k != Context
    requires p.nextToken <= r.originalStart
    requires r.originalStart + r.originalLength <= |p.original.tokens|
    requires r.modifiedStart + r.modifiedLength <= |p.modified.tokens|
    requires p.hunk == [] <==> p.hunkLength == Pair(0, 0)
    requires p.hunkStart.original + p.hunkLength.original <= RangeFrom(p, OriginalSide, cf)
    requires RangeFrom(p, OriginalSide, cf) >= r.originalStart ==>
               p.hunkStart.original + p.hunkLength.original <= p.nextToken
    ensures var e := EmitChange(p, cf, r);
            && BehindCursor(e) && e.nextToken <= r.originalStart + r.originalLength
            && Shown(e, k) == Shown(p, k) + ChangeOf(r, p.original.tokens, p.modified.tokens, k)
  {
    hide TokenRange, EmitChange;
    var os, ol, ms, ml := r.originalStart, r.originalLength, r.modifiedStart, r.modifiedLength;
    EmitChangeSteps(p, cf, r);
    ContextStep(p, cf, os, k);
    var c := TokenRange(p, OriginalSide, Context, cf, os);
    DeleteStep(c, os, ol, k);
    var d := TokenRange(c, OriginalSide, Delete, os, os + ol);
    InsertStep(d, ms, ml, k);
    var x := if k == Delete then p.original.tokens[os..os + ol] else [];
    var y := if k == Insert then p.modified.tokens[ms..ms + ml] else [];
    JoinAssoc(Shown(p, k), x, y);
    assert x + y == ChangeOf(r, p.original.tokens, p.modified.tokens, k);
  }

  /** Either callback's context start, after `PrepareHunk`, writes the
      change in full. */
  lemma ChangeStep(b: OutputBaton, r: DiffRange, cf: nat)
    requires cf == TargetOriginal(b, r) || (PrepareHunk(b, r).hunk != [] && cf == PrepareHunk(b, r).nextToken)
    ensures StepReady(b, r) ==> WritesChange(b, r, EmitChange(PrepareHunk(b, r), cf, r))
  {
    if StepReady(b, r) {
      hide EmitChange, Flush;
      var p := PrepareHunk(b, r);
      PrepareStep(b, r, Delete);
      PrepareStep(b, r, Insert);
      EmitStep(p, cf, r, Delete);
      EmitStep(p, cf, r, Insert);
    }
  }

  /** The lines of kind `k` the modified ranges of `diff` replace (for
      `Delete`) or bring (for `Insert`), in order. */
  function ChangeLines(diff: seq<DiffRange>, o: seq<seq<Byte>>, m: seq<seq<Byte>>, k: LineKind): seq<seq<Byte>>
    decreases |diff|
  {
    if diff == [] then []
    else (if diff[0].kind == DiffModified then ChangeOf(diff[0], o, m, k) else [])
         + ChangeLines(diff[1..], o, m, k)
  }

  lemma {:induction false} PassShown(cb: Callback, b: OutputBaton, diff: seq<DiffRange>, k: LineKind)
    requires k == Delete || k == Insert
    requires BehindCursor(b) && b.contextSize > 0
    requires ModifiedRangesOrdered(diff, |b.original.tokens|, |b.modified.tokens|)
    requires forall i :: 0 <= i < |diff| && diff[i].kind == DiffModified ==> b.nextToken <= diff[i].originalStart
    ensures BehindCursor(Pass(cb, b, diff))
    ensures Shown(Pass(cb, b, diff), k) == Shown(b, k) + ChangeLines(diff, b.original.tokens, b.modified.tokens, k)
    decreases |diff|
  {
    hide OutputDiffModified, OutputDiffModifiedAsWritten, DiffModifiedBy, PrepareHunk, EmitChange, TokenRange, Flush;
    var o, m := b.original.tokens, b.modified.tokens;
    if diff == [] {
      assert Shown(b, k) + [] == Shown(b, k);
    } else {
      var r := diff[0];
      var b' := if r.kind == DiffModified then DiffModifiedBy(cb, b, r) else b;
      var x := if r.kind == DiffModified then ChangeOf(r, o, m, k) else [];
      if r.kind == DiffModified {
        assert StepReady(b, r);
        assert Shown(b', k) == Shown(b, k) + x;
      } else {
        assert Shown(b', k) == Shown(b, k) + x;
      }
      assert forall i :: 0 <= i < |diff[1..]| ==> diff[1..][i] == diff[i + 1];
      PassShown(cb, b', diff[1..], k);
      JoinAssoc(Shown(b, k), x, ChangeLines(diff[1..], o, m, k));
    }
  }

  /** Both versions of the writer show every change in full: across the
      hunks written, in order, the deleted lines are exactly the original
      lines the modified ranges replace and the inserted lines exactly the
      modified lines they bring, so an alignment with any deleted or
      inserted line writes at least one hunk. */
  lemma UnifiedHunksShowEveryChange(cb: Callback, contextSize: nat, eol: seq<Byte>, diff: seq<DiffRange>,
                                    original: seq<Byte>, modified: seq<Byte>)
    requires contextSize > 0
    requires ModifiedRangesOrdered(diff, |Tokenize(original).tokens|, |Tokenize(modified).tokens|)
    ensures var ws := UnifiedHunks(cb, contextSize, eol, diff, original, modified);
            var o := Tokenize(original).tokens;
            var m := Tokenize(modified).tokens;
            && WrittenLines(ws, Delete) == ChangeLines(diff, o, m, Delete)
            && WrittenLines(ws, Insert) == ChangeLines(diff, o, m, Insert)
            && (ChangeLines(diff, o, m, Delete) != [] || ChangeLines(diff, o, m, Insert) != [] ==> ws != [])
  {
    hide Pass, Flush, Tokenize;
    var b := InitialBaton(contextSize, eol, original, modified);
    var o, m := b.original.tokens, b.modified.tokens;
    assert Shown(b, Delete) == [] && Shown(b, Insert) == [];
    var x := Pass(cb, b, diff);
    PassShown(cb, b, diff, Delete);
    PassShown(cb, b, diff, Insert);
    FlushShown(x, Delete);
    FlushShown(x, Insert);
    var ws := Flush(x).written;
    assert ws == UnifiedHunks(cb, contextSize, eol, diff, original, modified);
    assert KindLines(Flush(x).hunk, Delete) == [] && KindLines(Flush(x).hunk, Insert) == [];
    EmptyJoins(WrittenLines(ws, Delete), ChangeLines(diff, o, m, Delete));
    EmptyJoins(WrittenLines(ws, Insert), ChangeLines(diff, o, m, Insert));
    assert o == Tokenize(original).tokens && m == Tokenize(modified).tokens;
  }

  lemma EmptyJoins<T>(a: seq<T>, c: seq<T>)
    requires a + [] == [] + c
    ensures a == c
  {
    assert a == a + [] && c == [] + c;
  }

  /** An alignment with a modified range has a deleted or an inserted
      line. */
  lemma {:induction false} SomeChangeShows(diff: seq<DiffRange>, o: seq<seq<Byte>>, m: seq<seq<Byte>>)
    requires ModifiedRangesOrdered(diff, |o|, |m|)
    requires exists i :: 0 <= i < |diff| && diff[i].kind == DiffModified
    ensures ChangeLines(diff, o, m, Delete) != [] || ChangeLines(diff, o, m, Insert) != []
    decreases |diff|
  {
    var r := diff[0];
    if r.kind == DiffModified {
      assert ChangeOf(r, o, m, Delete) != [] || ChangeOf(r, o, m, Insert) != [];
    } else {
      var i :| 0 <= i < |diff| && diff[i].kind == DiffModified;
      assert diff[1..][i - 1] == diff[i];
      assert forall j :: 0 <= j < |diff[1..]| ==> diff[1..][j] == diff[j + 1];
      SomeChangeShows(diff[1..], o, m);
    }
  }

  // ---------------------------------------------------------------------
  // Hunk invariants

  /** The header lengths count the lines the hunk shows of each side. */
  ghost predicate CountsMatch(b: OutputBaton) {
    && b.hunkLength.original == |SideLines(b.hunk, OriginalSide)|
    && b.hunkLength.modified == |SideLines(b.hunk, ModifiedSide)|
  }

  /** The open hunk shows a contiguous run of the original starting at its
      recorded start and ending at the cursor; a closed hunk is anchored at
      or after the cursor. */
  ghost predicate Contiguous(b: OutputBaton) {
    && b.nextToken <= |b.original.tokens|
    && 0 <= b.hunkStart.original
    && CountsMatch(b)
    && (b.hunk == [] <==> b.hunkLength == Pair(0, 0))
    && (b.hunk != [] ==>
          && b.hunkStart.original + b.hunkLength.original == b.nextToken
          && SideLines(b.hunk, OriginalSide)
             == b.original.tokens[b.hunkStart.original..b.nextToken])
    && (b.hunk == [] ==> b.nextToken <= b.hunkStart.original)
  }

  /** The state between two callbacks: contiguous, and a closed hunk only
      before any change has been seen. */
  ghost predicate Ready(b: OutputBaton) {
    Contiguous(b) && (b.hunk == [] ==> b.nextToken == 0)
  }

  /** A written hunk whose header names exactly the run of original lines
      its body shows, and the number of modified lines it shows. */
  ghost predicate WrittenFaithfully(w: WrittenHunk, tokens: seq<seq<Byte>>) {
    var s := if w.originalLength > 0 then w.originalStart - 1 else w.originalStart;
    && w.items != []
    && 0 <= s && s + w.originalLength <= |tokens|
    && SideLines(w.items, OriginalSide) == tokens[s..s + w.originalLength]
    && w.modifiedLength == |SideLines(w.items, ModifiedSide)|
  }

  ghost predicate AllFaithful(ws: seq<WrittenHunk>, tokens: seq<seq<Byte>>) {
    forall i :: 0 <= i < |ws| ==> WrittenFaithfully(ws[i], tokens)
  }

  ghost predicate AllWrittenFaithfully(b: OutputBaton) {
    AllFaithful(b.written, b.original.tokens)
  }

  /** An original-side range that starts where the hunk continues keeps
      the hunk contiguous. */
  lemma OriginalRangeKeeps(b: OutputBaton, kind: LineKind, first: nat, pastLast: int)
    requires kind != Insert && Contiguous(b)
    requires b.hunk != [] ==> first == b.nextToken
    requires b.hunk == [] ==> first == b.hunkStart.original
    ensures var r := TokenRange(b, OriginalSide, kind, first, pastLast);
            && Contiguous(r)
            && r.written == b.written && r.hunkStart == b.hunkStart
            && (r.hunk != [] ==> r.nextToken == (if RangeEnd(b.original, pastLast) > first then RangeEnd(b.original, pastLast) else first))
            && (r.hunk == [] ==> r == b && RangeEnd(b.original, pastLast) <= first)
  {
    hide TokenRange;
    var r := TokenRange(b, OriginalSide, kind, first, pastLast);
    var past := RangeEnd(b.original, pastLast);
    TokenRangeEffect(b, OriginalSide, kind, first, pastLast);
    if b.hunk == [] && first < past {
      assert b.hunkStart.original <= past <= |b.original.tokens|;
    }
  }

  /** An inserted range keeps the hunk contiguous when a closed hunk is
      anchored at the cursor. */
  lemma InsertRangeKeeps(b: OutputBaton, first: nat, pastLast: int)
    requires Contiguous(b)
    requires b.hunk == [] ==> b.nextToken == b.hunkStart.original
    ensures var r := TokenRange(b, ModifiedSide, Insert, first, pastLast);
            && Contiguous(r)
            && r.written == b.written && r.nextToken == b.nextToken
            && r.hunkStart == b.hunkStart
            && (first < RangeEnd(b.modified, pastLast) ==> r.hunk != [])
            && (r.hunk == [] ==> r == b)
  {
    var r := TokenRange(b, ModifiedSide, Insert, first, pastLast);
    TokenRangeEffect(b, ModifiedSide, Insert, first, pastLast);
    if b.hunk == [] && r.hunk != [] {
      assert b.original.tokens[b.hunkStart.original..b.nextToken] == [];
    }
  }

  /** Flushing an open contiguous hunk writes a faithful hunk: the
      trailing context continues the run of original lines exactly. */
  lemma FlushWritesFaithfully(b: OutputBaton)
    requires Contiguous(b) && b.hunk != []
    ensures WrittenFaithfully(Flush(b).written[|b.written|], b.original.tokens)
  {
    hide TokenRange, Flush;
    FlushEffect(b);
    var w := Flush(b).written[|b.written|];
    var ctx := TrailingContext(b);
    var toks := b.original.tokens;
    var hs := b.hunkStart.original;
    var e := b.nextToken + |ctx|;
    assert e <= |toks| && ctx == toks[b.nextToken..e];
    SliceJoin(toks, hs, b.nextToken, e);
    assert w.originalLength == e - hs;
  }

  lemma SliceJoin<T>(s: seq<T>, i: nat, j: nat, k: nat)
    requires i <= j <= k <= |s|
    ensures s[i..j] + s[j..k] == s[i..k]
  {
  }

  lemma AppendFaithful(ws: seq<WrittenHunk>, w: WrittenHunk, tokens: seq<seq<Byte>>)
    requires AllFaithful(ws, tokens) && WrittenFaithfully(w, tokens)
    ensures AllFaithful(ws + [w], tokens)
  {
    assert forall i :: 0 <= i < |ws| ==> (ws + [w])[i] == ws[i];
  }

  /** Flushing a contiguous hunk keeps every written hunk faithful and
      closes the hunk, with the cursor at most `contextSize` lines further
      on. */
  lemma FlushKeeps(b: OutputBaton)
    requires Contiguous(b) && AllWrittenFaithfully(b)
    ensures var f := Flush(b);
            && AllWrittenFaithfully(f)
            && f.hunk == [] && f.hunkLength == Pair(0, 0)
            && f.nextToken <= |b.original.tokens|
            && f.nextToken <= b.nextToken + b.contextSize
  {
    if b.hunk != [] {
      var f := Flush(b);
      FlushEffect(b);
      FlushWritesFaithfully(b);
      assert f.written == b.written + [f.written[|b.written|]];
      AppendFaithful(b.written, f.written[|b.written|], b.original.tokens);
    }
  }

  /** After `PrepareHunk` the state is contiguous, and a closed hunk is
      anchored at the change's leading context, at or after the cursor. */
  lemma PrepareKeeps(b: OutputBaton, r: DiffRange)
    requires Ready(b) && AllWrittenFaithfully(b)
    requires b.nextToken <= r.originalStart <= |b.original.tokens|
    ensures var p := PrepareHunk(b, r);
            && Contiguous(p) && AllWrittenFaithfully(p)
            && p.nextToken <= r.originalStart
            && (p.hunk == [] ==> p.hunkStart.original == TargetOriginal(b, r)
                                 && p.nextToken <= TargetOriginal(b, r))
  {
    var targ := TargetOriginal(b, r);
    if b.nextToken + b.contextSize < targ {
      FlushKeeps(b);
    }
  }

  /** The leading context and the deleted lines of a change keep the hunk
      contiguous and bring the cursor to the end of the change. */
  lemma OriginalSideKeeps(p: OutputBaton, cf: nat, r: DiffRange)
    requires Contiguous(p)
    requires p.nextToken <= r.originalStart
    requires r.originalStart + r.originalLength <= |p.original.tokens|
    requires p.hunk != [] ==> cf == p.nextToken
    requires p.hunk == [] ==> cf == p.hunkStart.original && p.nextToken <= cf <= r.originalStart
    requires p.hunk == [] && cf == r.originalStart ==> p.nextToken == cf
    ensures var c := TokenRange(p, OriginalSide, Context, cf, r.originalStart);
            var d := TokenRange(c, OriginalSide, Delete, r.originalStart, r.originalStart + r.originalLength);
            && Contiguous(d)
            && d.nextToken == r.originalStart + r.originalLength
            && (d.hunk == [] ==> d.nextToken == d.hunkStart.original && r.originalLength == 0)
  {
    hide TokenRange;
    var os, ol := r.originalStart, r.originalLength;
    var c := TokenRange(p, OriginalSide, Context, cf, os);
    OriginalRangeKeeps(p, Context, cf, os);
    assert c.hunk != [] ==> c.nextToken == os;
    assert c.hunk == [] ==> c.hunkStart.original == os && c.nextToken == os;
    OriginalRangeKeeps(c, Delete, os, os + ol);
  }

  /** The inserted lines of a change leave an open, contiguous hunk. */
  lemma InsertKeepsReady(d: OutputBaton, first: nat, pastLast: int)
    requires Contiguous(d)
    requires d.hunk == [] ==> d.nextToken == d.hunkStart.original && first < RangeEnd(d.modified, pastLast)
    ensures var e := TokenRange(d, ModifiedSide, Insert, first, pastLast);
            Ready(e) && e.hunk != [] && e.written == d.written && e.nextToken == d.nextToken
  {
    InsertRangeKeeps(d, first, pastLast);
  }

  /** A change written from where the hunk continues leaves an open,
      contiguous hunk with the cursor at the end of the change. */
  lemma EmitKeepsReady(p: OutputBaton, cf: nat, r: DiffRange)
    requires Contiguous(p)
    requires p.nextToken <= r.originalStart
    requires r.originalStart + r.originalLength <= |p.original.tokens|
    requires r.modifiedStart + r.modifiedLength <= |p.modified.tokens|
    requires r.originalLength > 0 || r.modifiedLength > 0
    requires p.hunk != [] ==> cf == p.nextToken
    requires p.hunk == [] ==> cf == p.hunkStart.original && p.nextToken <= cf <= r.originalStart
    requires p.hunk == [] && cf == r.originalStart ==> p.nextToken == cf
    ensures var e := EmitChange(p, cf, r);
            Ready(e) && e.hunk != [] && e.nextToken == r.originalStart + r.originalLength
  {
    hide TokenRange, EmitChange;
    OriginalSideKeeps(p, cf, r);
    var c := TokenRange(p, OriginalSide, Context, cf, r.originalStart);
    var d := TokenRange(c, OriginalSide, Delete, r.originalStart, r.originalStart + r.originalLength);
    var e := TokenRange(d, ModifiedSide, Insert, r.modifiedStart, r.modifiedStart + r.modifiedLength);
    InsertKeepsReady(d, r.modifiedStart, r.modifiedStart + r.modifiedLength);
    EmitChangeSteps(p, cf, r);
    SameReady(EmitChange(p, cf, r), e);
  }

  /** Equal batons are equally ready. */
  lemma SameReady(x: OutputBaton, y: OutputBaton)
    requires x == y && Ready(y)
    ensures Ready(x) && x.hunk == y.hunk && x.nextToken == y.nextToken
  {
  }

  /** `EmitChange` as its three token ranges. */
  lemma EmitChangeSteps(p: OutputBaton, cf: nat, r: DiffRange)
    ensures var c := TokenRange(p, OriginalSide, Context, cf, r.originalStart);
            var d := TokenRange(c, OriginalSide, Delete, r.originalStart, r.originalStart + r.originalLength);
            EmitChange(p, cf, r)
              == TokenRange(d, ModifiedSide, Insert, r.modifiedStart, r.modifiedStart + r.modifiedLength)
  {
    hide TokenRange;
  }

  lemma FaithfulTransfer(p: OutputBaton, e: OutputBaton)
    requires AllWrittenFaithfully(p)
    requires e.written == p.written && e.original == p.original
    ensures AllWrittenFaithfully(e)
  {
  }

  /** The corrected callback keeps the hunk contiguous and every written
      hunk faithful, leaves the hunk open and moves the cursor past the
      change. */
  lemma DiffModifiedKeepsReady(b: OutputBaton, r: DiffRange)
    requires Ready(b) && AllWrittenFaithfully(b)
    requires b.contextSize > 0
    requires b.nextToken <= r.originalStart
    requires r.originalStart + r.originalLength <= |b.original.tokens|
    requires r.modifiedStart + r.modifiedLength <= |b.modified.tokens|
    requires r.originalLength > 0 || r.modifiedLength > 0
    ensures var res := OutputDiffModified(b, r);
            && Ready(res) && AllWrittenFaithfully(res)
            && res.hunk != []
            && res.nextToken == r.originalStart + r.originalLength
  {
    var targ := TargetOriginal(b, r);
    var p := PrepareHunk(b, r);
    PrepareKeeps(b, r);
    var cf := if p.hunk != [] then p.nextToken else targ;
    EmitKeepsReady(p, cf, r);
    FaithfulTransfer(p, OutputDiffModified(b, r));
  }

  /** The alignment's modified ranges as the unified writer needs them:
      within both texts, non-empty, and in increasing order. */
  ghost predicate ModifiedRangesOrdered(diff: seq<DiffRange>, n: nat, m: nat) {
    && (forall i :: 0 <= i < |diff| && diff[i].kind == DiffModified ==>
          && diff[i].originalStart + diff[i].originalLength <= n
          && diff[i].modifiedStart + diff[i].modifiedLength <= m
          && (diff[i].originalLength > 0 || diff[i].modifiedLength > 0))
    && (forall i, j :: 0 <= i < j < |diff| && diff[i].kind == DiffModified && diff[j].kind == DiffModified ==>
          diff[i].originalStart + diff[i].originalLength <= diff[j].originalStart)
  }

  lemma {:induction false} PassKeepsReady(b: OutputBaton, diff: seq<DiffRange>)
    requires Ready(b) && AllWrittenFaithfully(b) && b.contextSize > 0
    requires ModifiedRangesOrdered(diff, |b.original.tokens|, |b.modified.tokens|)
    requires forall i :: 0 <= i < |diff| && diff[i].kind == DiffModified ==> b.nextToken <= diff[i].originalStart
    ensures Ready(Pass(Corrected, b, diff)) && AllWrittenFaithfully(Pass(Corrected, b, diff))
    decreases |diff|
  {
    hide OutputDiffModified, PrepareHunk, EmitChange, TokenRange, Flush, StepReady, WritesChange;
    if diff != [] {
      var b' := if diff[0].kind == DiffModified then OutputDiffModified(b, diff[0]) else b;
      if diff[0].kind == DiffModified {
        DiffModifiedKeepsReady(b, diff[0]);
      }
      assert forall i :: 0 <= i < |diff[1..]| ==> diff[1..][i] == diff[i + 1];
      PassKeepsReady(b', diff[1..]);
    }
  }

  /** The corrected unified writer's promise: every hunk it writes names
      in its header the run of original lines its body shows (1-based
      start, length) and the number of modified lines it shows; across the
      hunks, in order, the deleted lines are exactly the original lines the
      modified ranges replace and the inserted lines exactly the modified
      lines they bring; and an alignment with a modified range writes at
      least one hunk. */
  lemma UnifiedHunksFaithful(contextSize: nat, eol: seq<Byte>, diff: seq<DiffRange>,
                             original: seq<Byte>, modified: seq<Byte>)
    requires contextSize > 0
    requires ModifiedRangesOrdered(diff, |Tokenize(original).tokens|, |Tokenize(modified).tokens|)
    ensures var ws := UnifiedHunks(Corrected, contextSize, eol, diff, original, modified);
            forall i :: 0 <= i < |ws| ==> WrittenFaithfully(ws[i], Tokenize(original).tokens)
    ensures var ws := UnifiedHunks(Corrected, contextSize, eol, diff, original, modified);
            var o := Tokenize(original).tokens;
            var m := Tokenize(modified).tokens;
            && WrittenLines(ws, Delete) == ChangeLines(diff, o, m, Delete)
            && WrittenLines(ws, Insert) == ChangeLines(diff, o, m, Insert)
    ensures (exists i :: 0 <= i < |diff| && diff[i].kind == DiffModified) ==>
              UnifiedHunks(Corrected, contextSize, eol, diff, original, modified) != []
  {
    var b := InitialBaton(contextSize, eol, original, modified);
    PassKeepsReady(b, diff);
    FlushKeeps(Pass(Corrected, b, diff));
    UnifiedHunksShowEveryChange(Corrected, contextSize, eol, diff, original, modified);
    if exists i :: 0 <= i < |diff| && diff[i].kind == DiffModified {
      SomeChangeShows(diff, Tokenize(original).tokens, Tokenize(modified).tokens);
    }
  }

  // ---------------------------------------------------------------------
  // The context-skip in the callback as written

  /** Ten one-line tokens "0\n" .. "9\n". */
  function TenLines(): seq<seq<Byte>> {
    seq(10, i requires 0 <= i < 10 => [Zero + i, LF])
  }

  /** The modified text: the ten lines without lines 0 and 5. */
  function EightLines(): seq<seq<Byte>> {
    TenLines()[1..5] + TenLines()[6..]
  }

  function ExampleStart(): OutputBaton {
    var o := SourceTokens(TenLines(), 0, Concat(TenLines()), false);
    var m := SourceTokens(EightLines(), 0, Concat(EightLines()), false);
    OutputBaton(UnifiedContextSize, [LF], o, m, 0, [], Pair(0, 0), Pair(0, 0), [])
  }

  /** The alignment of the two texts: line 0 deleted, lines 1-4 common,
      line 5 deleted, lines 6-9 common. */
  function ExampleDiff(): seq<DiffRange> {
    [FirstChange(), DiffRange(Common, 1, 4, 0, 4, 0, 0, None),
     SecondChange(), DiffRange(Common, 6, 4, 4, 4, 0, 0, None)]
  }

  /** A text of one-byte lines each ended by LF tokenizes into those
      lines, with a final terminator. */
  lemma TokenizeShortLines(ls: seq<seq<Byte>>)
    requires |ls| > 0
    requires forall i :: 0 <= i < |ls| ==> |ls[i]| == 2 && !IsEol(ls[i][0]) && ls[i][1] == LF
    ensures Tokenize(Concat(ls)) == SourceTokens(ls, 0, Concat(ls), false)
  {
    forall i | 0 <= i < |ls|
      ensures CompleteLine(ls[i])
    {
      assert TerminatorLength(ls[i]) == 1;
      assert ls[i][..1] == [ls[i][0]];
    }
    assert WellFormedLines(ls);
    ConcatSnoc(ls[..|ls| - 1], ls[|ls| - 1]);
    assert ls[..|ls| - 1] + [ls[|ls| - 1]] == ls;
    TokenizeIsTheLineSplit(Concat(ls), ls);
  }

  /** The example state is where the driver starts on the two texts. */
  lemma ExampleIsInitial()
    ensures InitialBaton(UnifiedContextSize, [LF], Concat(TenLines()), Concat(EightLines())) == ExampleStart()
  {
    var e := EightLines();
    forall i | 0 <= i < |e|
      ensures |e[i]| == 2 && !IsEol(e[i][0]) && e[i][1] == LF
    {
      if i < 4 {
        assert e[i] == TenLines()[i + 1];
      } else {
        assert e[i] == TenLines()[i + 2];
      }
    }
    TokenizeShortLines(TenLines());
    TokenizeShortLines(e);
  }

  /** One step of the driver. */
  lemma PassStep(cb: Callback, b: OutputBaton, diff: seq<DiffRange>)
    requires diff != []
    ensures Pass(cb, b, diff)
            == Pass(cb, if diff[0].kind == DiffModified then DiffModifiedBy(cb, b, diff[0]) else b, diff[1..])
  {
  }

  /** Delete line 0. */
  function FirstChange(): DiffRange {
    DiffRange(DiffModified, 0, 1, 0, 0, 0, 0, None)
  }

  /** Delete line 5 (line 4 of the modified text). */
  function SecondChange(): DiffRange {
    DiffRange(DiffModified, 5, 1, 4, 0, 0, 0, None)
  }

  /** The state after the first change, either way. */
  function AfterFirst(): OutputBaton {
    ExampleStart().(nextToken := 1, hunk := [Line(Delete, TenLines()[0])], hunkLength := Pair(1, 0))
  }

  lemma FirstChangeEitherWay()
    ensures OutputDiffModifiedAsWritten(ExampleStart(), FirstChange()) == AfterFirst()
    ensures OutputDiffModified(ExampleStart(), FirstChange()) == AfterFirst()
  {
    hide StepReady, WritesChange;
    var b := ExampleStart();
    var r1 := FirstChange();
    assert PrepareHunk(b, r1) == b;
    EmitChangeSteps(b, 0, r1);
    var d := TokenRange(b, OriginalSide, Delete, 0, 1);
    assert d.hunk == [] + LinesOf(Delete, TenLines()[0..1]) + [];
  }

  /** A range of the original strictly inside the text and at or after
      the cursor is appended whole, with no notice. */
  lemma OriginalRangeInside(b: OutputBaton, kind: LineKind, first: nat, pastLast: nat)
    requires b.nextToken <= first < pastLast < |b.original.tokens|
    ensures TokenRange(b, OriginalSide, kind, first, pastLast)
            == b.(hunk := b.hunk + LinesOf(kind, b.original.tokens[first..pastLast]),
                  hunkLength := Bump(b.hunkLength, kind, pastLast - first),
                  nextToken := pastLast)
  {
  }

  lemma ModifiedRangeEmpty(b: OutputBaton, kind: LineKind, first: nat)
    ensures TokenRange(b, ModifiedSide, kind, first, first) == b
  {
  }

  /** The joined second change, from the context start `cf`: context
      `cf`..5, the deletion of line 5, no insertion. */
  lemma SecondChangeFrom(cf: nat)
    requires 1 <= cf < 5
    ensures var a1 := AfterFirst();
            var t := TenLines();
            EmitChange(a1, cf, SecondChange())
              == a1.(hunk := a1.hunk + LinesOf(Context, t[cf..5]) + [Line(Delete, t[5])],
                     nextToken := 6, hunkLength := Pair(1 + (5 - cf) + 1, 5 - cf))
  {
    hide TokenRange, EmitChange;
    var a1 := AfterFirst();
    var t := TenLines();
    EmitChangeSteps(a1, cf, SecondChange());
    OriginalRangeInside(a1, Context, cf, 5);
    var c := TokenRange(a1, OriginalSide, Context, cf, 5);
    OriginalRangeInside(c, Delete, 5, 6);
    var d := TokenRange(c, OriginalSide, Delete, 5, 6);
    assert LinesOf(Delete, t[5..6]) == [Line(Delete, t[5])];
    ModifiedRangeEmpty(d, Insert, 4);
  }

  lemma SecondChangeJoins()
    ensures PrepareHunk(AfterFirst(), SecondChange()) == AfterFirst()
    ensures TargetOriginal(AfterFirst(), SecondChange()) == 2
  {
    hide Flush;
  }

  lemma SecondChangeAsWritten()
    ensures var a2 := OutputDiffModifiedAsWritten(AfterFirst(), SecondChange());
            var t := TenLines();
            a2 == AfterFirst().(nextToken := 6, hunkLength := Pair(5, 3),
                                hunk := [Line(Delete, t[0]), Line(Context, t[2]), Line(Context, t[3]),
                                         Line(Context, t[4]), Line(Delete, t[5])])
  {
    hide TokenRange, EmitChange, PrepareHunk, Flush, StepReady, WritesChange;
    var t := TenLines();
    SecondChangeJoins();
    SecondChangeFrom(2);
    assert LinesOf(Context, t[2..5]) == [Line(Context, t[2]), Line(Context, t[3]), Line(Context, t[4])];
  }

  lemma SecondChangeCorrected()
    ensures var a2 := OutputDiffModified(AfterFirst(), SecondChange());
            var t := TenLines();
            a2 == AfterFirst().(nextToken := 6, hunkLength := Pair(6, 4),
                                hunk := [Line(Delete, t[0]), Line(Context, t[1]), Line(Context, t[2]),
                                         Line(Context, t[3]), Line(Context, t[4]), Line(Delete, t[5])])
  {
    hide TokenRange, EmitChange, PrepareHunk, Flush, StepReady, WritesChange;
    var t := TenLines();
    SecondChangeJoins();
    SecondChangeFrom(1);
    assert LinesOf(Context, t[1..5])
           == [Line(Context, t[1]), Line(Context, t[2]), Line(Context, t[3]), Line(Context, t[4])];
  }

  /** With three lines of context, deleting line 0 and then line 5: the
      second change joins the open hunk (the cursor is at 1, the context
      target at 2), and the callback as written resumes the context at 2,
      so line 1 is missing: the hunk written as lines 1-7 of the original
      shows lines 1 and 3-8. The corrected callback shows lines 1-6 before
      the flush. */
  lemma AsWrittenSkipsContext()
    ensures var asWritten := OutputDiffModifiedAsWritten(OutputDiffModifiedAsWritten(ExampleStart(), FirstChange()), SecondChange());
            var fixed := OutputDiffModified(OutputDiffModified(ExampleStart(), FirstChange()), SecondChange());
            && asWritten.hunkStart.original == 0
            && asWritten.hunkLength.original == 5
            && SideLines(asWritten.hunk, OriginalSide) != TenLines()[0..5]
            && !WrittenFaithfully(Flush(asWritten).written[0], TenLines())
            && SideLines(fixed.hunk, OriginalSide) == TenLines()[0..6]
  {
    hide OutputDiffModifiedAsWritten, OutputDiffModified, PrepareHunk, EmitChange, TokenRange, Flush, StepReady, WritesChange;
    FirstChangeEitherWay();
    AsWrittenHunkSkipsLine();
    AsWrittenFlushUnfaithful();
    CorrectedHunkContiguous();
  }

  /** The same at the level of the whole writer: on the ten-line text and
      its copy without lines 0 and 5, the writer as written emits a single
      hunk whose header does not match its body, while every hunk of the
      corrected writer matches its header. */
  lemma AsWrittenDriverSkipsContext()
    ensures var ws := UnifiedHunks(AsWritten, UnifiedContextSize, [LF], ExampleDiff(),
                                   Concat(TenLines()), Concat(EightLines()));
            |ws| == 1 && !WrittenFaithfully(ws[0], Tokenize(Concat(TenLines())).tokens)
    ensures var ws := UnifiedHunks(Corrected, UnifiedContextSize, [LF], ExampleDiff(),
                                   Concat(TenLines()), Concat(EightLines()));
            |ws| > 0 && forall i :: 0 <= i < |ws| ==> WrittenFaithfully(ws[i], Tokenize(Concat(TenLines())).tokens)
  {
    hide OutputDiffModifiedAsWritten, OutputDiffModified, PrepareHunk, EmitChange, TokenRange, Flush, Pass, Tokenize, StepReady, WritesChange;
    ExampleIsInitial();
    ExamplePassAsWritten();
    var a2 := OutputDiffModifiedAsWritten(AfterFirst(), SecondChange());
    SecondChangeAsWritten();
    AsWrittenFlushUnfaithful();
    assert |Flush(a2).written| == 1;
    CorrectedExampleFaithful();
  }

  /** The pass as written over the example alignment ends in the state
      after the second change. */
  lemma ExamplePassAsWritten()
    ensures Pass(AsWritten, ExampleStart(), ExampleDiff())
            == OutputDiffModifiedAsWritten(AfterFirst(), SecondChange())
  {
    hide OutputDiffModifiedAsWritten, OutputDiffModified, PrepareHunk, EmitChange, TokenRange, Flush, Pass, StepReady, WritesChange;
    var d := ExampleDiff();
    FirstChangeEitherWay();
    PassStep(AsWritten, ExampleStart(), d);
    PassStep(AsWritten, AfterFirst(), d[1..]);
    PassStep(AsWritten, AfterFirst(), d[2..]);
    var a2 := OutputDiffModifiedAsWritten(AfterFirst(), SecondChange());
    PassStep(AsWritten, a2, d[3..]);
    assert d[4..] == [];
    assert Pass(AsWritten, a2, d[4..]) == a2;
  }

  lemma CorrectedExampleFaithful()
    ensures var ws := UnifiedHunks(Corrected, UnifiedContextSize, [LF], ExampleDiff(),
                                   Concat(TenLines()), Concat(EightLines()));
            |ws| > 0 && forall i :: 0 <= i < |ws| ==> WrittenFaithfully(ws[i], Tokenize(Concat(TenLines())).tokens)
  {
    hide OutputDiffModifiedAsWritten, OutputDiffModified, PrepareHunk, EmitChange, TokenRange, Flush, Pass, Tokenize, UnifiedHunks;
    ExampleIsInitial();
    var d := ExampleDiff();
    assert d[0].kind == DiffModified;
    assert ModifiedRangesOrdered(d, |TenLines()|, |EightLines()|);
    UnifiedHunksFaithful(UnifiedContextSize, [LF], d, Concat(TenLines()), Concat(EightLines()));
  }

  lemma LinesOneTwoDiffer()
    ensures TenLines()[1] != TenLines()[2]
  {
    assert TenLines()[1][0] == Zero + 1 && TenLines()[2][0] == Zero + 2;
  }

  lemma AsWrittenHunkSkipsLine()
    ensures var a2 := OutputDiffModifiedAsWritten(AfterFirst(), SecondChange());
            && a2.hunkStart.original == 0
            && a2.hunkLength.original == 5
            && SideLines(a2.hunk, OriginalSide) != TenLines()[0..5]
  {
    hide StepReady, WritesChange;
    SecondChangeAsWritten();
    LinesOneTwoDiffer();
    var a2 := OutputDiffModifiedAsWritten(AfterFirst(), SecondChange());
    SideLinesOfShown(a2.hunk);
    assert SideLines(a2.hunk, OriginalSide)[1] == TenLines()[2];
  }

  lemma AsWrittenFlushUnfaithful()
    ensures !WrittenFaithfully(Flush(OutputDiffModifiedAsWritten(AfterFirst(), SecondChange())).written[0], TenLines())
  {
    hide StepReady, WritesChange, OutputDiffModifiedAsWritten, PrepareHunk, EmitChange, TokenRange;
    SecondChangeAsWritten();
    LinesOneTwoDiffer();
    var a2 := OutputDiffModifiedAsWritten(AfterFirst(), SecondChange());
    SideLinesOfShown(a2.hunk);
    assert |TrailingContext(a2)| == 2;
    FlushEffect(a2);
    var w := Flush(a2).written[0];
    assert w.originalLength == 7 && w.originalStart == 1;
    assert SideLines(w.items, OriginalSide)[1] == TenLines()[2];
  }

  lemma CorrectedHunkContiguous()
    ensures SideLines(OutputDiffModified(AfterFirst(), SecondChange()).hunk, OriginalSide) == TenLines()[0..6]
  {
    hide OutputDiffModified, PrepareHunk, EmitChange, TokenRange, StepReady, WritesChange;
    SecondChangeCorrected();
    SideLinesOfShown(OutputDiffModified(AfterFirst(), SecondChange()).hunk);
  }

  /** The original side of a hunk made of context and deleted lines only
      is all of its lines. */
  lemma {:induction false} SideLinesOfShown(items: seq<HunkItem>)
    requires forall i :: 0 <= i < |items| ==> items[i].Line? && items[i].kind != Insert
    ensures |SideLines(items, OriginalSide)| == |items|
    ensures forall i :: 0 <= i < |items| ==> SideLines(items, OriginalSide)[i] == items[i].text
  {
    if items != [] {
      SideLinesOfShown(items[..|items| - 1]);
    }
  }

}
