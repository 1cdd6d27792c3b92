/** The three-way merge writer of `diff_memory.c`: the token copier
    (`output_merge_token_range`), the per-range callbacks
    (`output_common_modified`, `output_latest`, `output_conflict`), the
    line-ending detection (`detect_eol`) and the marker set-up and driver
    of `svn_diff_mem_string_output_merge`. The output stream is the byte
    sequence `out`. */
module Merge {

  import opened Wrappers
  import opened Bytes
  import opened Tokens
  import opened Alignment

  /** The four conflict markers, each already followed by its EOL. */
  datatype Markers = Markers(
    original: seq<Byte>, modified: seq<Byte>, separator: seq<Byte>, latest: seq<Byte>)

  /** `merge_output_baton_t`. */
  datatype MergeBaton = MergeBaton(
    original: SourceTokens,
    modified: SourceTokens,
    latest: SourceTokens,
    markers: Markers,
    displayOriginalInConflict: bool,
    displayResolvedConflicts: bool,
    out: seq<Byte>)

  /** Source index of the merge baton: 0, 1 and 2. */
  datatype MergeSource = FromOriginal | FromModified | FromLatest

  /** The caller's choices: marker texts (absent means the default) and
      the two display flags. */
  datatype MergeOptions = MergeOptions(
    conflictOriginal: Option<seq<Byte>>,
    conflictModified: Option<seq<Byte>>,
    conflictLatest: Option<seq<Byte>>,
    conflictSeparator: Option<seq<Byte>>,
    displayOriginalInConflict: bool,
    displayResolvedConflicts: bool)

  function SourceOf(b: MergeBaton, s: MergeSource): SourceTokens {
    match s
    case FromOriginal => b.original
    case FromModified => b.modified
    case FromLatest => b.latest
  }

  // ---------------------------------------------------------------------
  // output_merge_token_range

  /** The text of `length` tokens of a source from `first` on. */
  function Text(src: SourceTokens, first: nat, length: nat): seq<Byte>
    requires first + length <= |src.tokens|
  {
    Concat(src.tokens[first..first + length])
  }

  /** The loop of `output_merge_token_range`: append the tokens one after
      the other. */
  function CopyTokens(out: seq<Byte>, toks: seq<seq<Byte>>, first: nat, length: nat): (r: seq<Byte>)
    requires first + length <= |toks|
    ensures r == out + Concat(toks[first..first + length])
    decreases length
  {
    if length == 0 then
      assert toks[first..first] == [];
      out
    else
      CopyStep(toks, first, length);
      AppendAssoc(out, toks[first], Concat(toks[first + 1..first + length]));
      CopyTokens(out + toks[first], toks, first + 1, length - 1)
  }

  lemma CopyStep(toks: seq<seq<Byte>>, first: nat, length: nat)
    requires 0 < length && first + length <= |toks|
    ensures Concat(toks[first..first + length]) == toks[first] + Concat(toks[first + 1..first + length])
  {
    ConcatCons(toks[first], toks[first + 1..first + length]);
    assert toks[first..first + length] == [toks[first]] + toks[first + 1..first + length];
  }

  /** `output_merge_token_range`: write `length` tokens of one source from
      `first` on. The C code indexes the token array unchecked, so the
      range must lie within the source. */
  function TokenRange(b: MergeBaton, s: MergeSource, first: nat, length: nat): (r: MergeBaton)
    requires first + length <= |SourceOf(b, s).tokens|
    ensures r == b.(out := b.out + Text(SourceOf(b, s), first, length))
  {
    b.(out := CopyTokens(b.out, SourceOf(b, s).tokens, first, length))
  }

  // ---------------------------------------------------------------------
  // The callbacks

  /** The ranges lie within the sources, also inside every sub-alignment. */
  ghost predicate Fits(diff: Diff, n: nat, m: nat, l: nat)
    decreases diff
  {
    forall i :: 0 <= i < |diff.ranges| ==>
      && diff.ranges[i].originalStart + diff.ranges[i].originalLength <= n
      && diff.ranges[i].modifiedStart + diff.ranges[i].modifiedLength <= m
      && diff.ranges[i].latestStart + diff.ranges[i].latestLength <= l
      && (diff.ranges[i].resolved.Some? ==> Fits(diff.ranges[i].resolved.value, n, m, l))
  }

  ghost predicate RangeFits(b: MergeBaton, d: DiffRange) {
    && d.originalStart + d.originalLength <= |b.original.tokens|
    && d.modifiedStart + d.modifiedLength <= |b.modified.tokens|
    && d.latestStart + d.latestLength <= |b.latest.tokens|
  }

  ghost predicate DiffFits(b: MergeBaton, diff: Diff) {
    Fits(diff, |b.original.tokens|, |b.modified.tokens|, |b.latest.tokens|)
  }

  /** `output_common_modified`: common, modified-only and both-same ranges
      copy the modified text. */
  function CommonModified(b: MergeBaton, d: DiffRange): (r: MergeBaton)
    requires RangeFits(b, d)
    ensures r.out == b.out + Text(b.modified, d.modifiedStart, d.modifiedLength)
    ensures r == b.(out := r.out)
  {
    TokenRange(b, FromModified, d.modifiedStart, d.modifiedLength)
  }

  /** `output_latest`: a latest-only range copies the latest text. */
  function Latest(b: MergeBaton, d: DiffRange): (r: MergeBaton)
    requires RangeFits(b, d)
    ensures r.out == b.out + Text(b.latest, d.latestStart, d.latestLength)
    ensures r == b.(out := r.out)
  {
    TokenRange(b, FromLatest, d.latestStart, d.latestLength)
  }

  /** The conflict block of `output_conflict`: the modified marker and
      text, the original marker and text when asked for, the separator,
      the latest text and the latest marker. */
  function ConflictBlock(b: MergeBaton, d: DiffRange): (r: MergeBaton)
    requires RangeFits(b, d)
    ensures r == b.(out := r.out)
    ensures r.out
      == b.out
         + b.markers.modified
         + Text(b.modified, d.modifiedStart, d.modifiedLength)
         + (if b.displayOriginalInConflict
            then b.markers.original
                 + Text(b.original, d.originalStart, d.originalLength)
            else [])
         + b.markers.separator
         + Text(b.latest, d.latestStart, d.latestLength)
         + b.markers.latest
  {
    var b1 := b.(out := b.out + b.markers.modified);
    var b2 := TokenRange(b1, FromModified, d.modifiedStart, d.modifiedLength);
    var shown := if b.displayOriginalInConflict
                 then b.markers.original + Text(b.original, d.originalStart, d.originalLength)
                 else [];
    var b3 := if b2.displayOriginalInConflict
              then TokenRange(b2.(out := b2.out + b2.markers.original), FromOriginal,
                              d.originalStart, d.originalLength)
              else b2;
    assert b3.out == b2.out + shown by {
      if b.displayOriginalInConflict {
        AppendAssoc(b2.out, b.markers.original, Text(b.original, d.originalStart, d.originalLength));
      }
    }
    var b4 := b3.(out := b3.out + b3.markers.separator);
    var b5 := TokenRange(b4, FromLatest, d.latestStart, d.latestLength);
    b5.(out := b5.out + b5.markers.latest)
  }

  /** The callback `svn_diff_output` calls for one range, other than a
      conflict that is shown resolved. */
  function EmitRange(b: MergeBaton, d: DiffRange): (r: MergeBaton)
    requires RangeFits(b, d)
    ensures r == b.(out := r.out) && b.out <= r.out
    ensures CopiesModifiedKind(d.kind) ==> r.out == b.out + Text(b.modified, d.modifiedStart, d.modifiedLength)
    ensures d.kind == DiffLatest ==> r.out == b.out + Text(b.latest, d.latestStart, d.latestLength)
    ensures d.kind == Conflict ==>
              && b.out + b.markers.modified <= r.out
              && |r.out| >= |b.markers.latest|
              && r.out[|r.out| - |b.markers.latest|..] == b.markers.latest
  {
    match d.kind
    case Common => CommonModified(b, d)
    case DiffModified => CommonModified(b, d)
    case DiffCommon => CommonModified(b, d)
    case DiffLatest => Latest(b, d)
    case Conflict =>
      var r := ConflictBlock(b, d);
      BlockEnds(b, d);
      r
  }

  /** A conflict block starts with the modified marker and ends with the
      latest marker. */
  lemma BlockEnds(b: MergeBaton, d: DiffRange)
    requires RangeFits(b, d)
    ensures var r := ConflictBlock(b, d);
            && b.out + b.markers.modified <= r.out
            && |r.out| >= |b.markers.latest|
            && r.out[|r.out| - |b.markers.latest|..] == b.markers.latest
  {
    hide Text;
    FramedBy(b.out + b.markers.modified,
             Text(b.modified, d.modifiedStart, d.modifiedLength),
             if b.displayOriginalInConflict
             then b.markers.original + Text(b.original, d.originalStart, d.originalLength)
             else [],
             b.markers.separator,
             Text(b.latest, d.latestStart, d.latestLength),
             b.markers.latest);
  }

  lemma FramedBy(head: seq<Byte>, a: seq<Byte>, c: seq<Byte>, d: seq<Byte>, e: seq<Byte>, tail: seq<Byte>)
    ensures var s := head + a + c + d + e + tail;
            head <= s && |s| >= |tail| && s[|s| - |tail|..] == tail
  {
  }

  /** Whether `output_conflict` hands the range's own alignment back to
      `svn_diff_output` instead of writing a conflict block. */
  predicate ShownResolved(b: MergeBaton, d: DiffRange) {
    d.kind == Conflict && d.resolved.Some? && b.displayResolvedConflicts
  }

  /** `svn_diff_output` with the merge vtable, from range `i` on. */
  function OutputFrom(b: MergeBaton, diff: Diff, i: nat): (r: MergeBaton)
    requires i <= |diff.ranges| && DiffFits(b, diff)
    ensures r == b.(out := r.out) && b.out <= r.out
    decreases diff, |diff.ranges| - i
  {
    if i == |diff.ranges| then b
    else
      var d := diff.ranges[i];
      var b' := if ShownResolved(b, d) then OutputFrom(b, d.resolved.value, 0) else EmitRange(b, d);
      OutputFrom(b', diff, i + 1)
  }

  // ---------------------------------------------------------------------
  // detect_eol and the markers

  /** `detect_eol`: the line ending the token ends with, if any. */
  function DetectEol(token: seq<Byte>): (r: Option<seq<Byte>>)
    ensures r.Some? <==> TerminatorLength(token) > 0
    ensures r.Some? ==> |r.value| == TerminatorLength(token)
                        && token[|token| - |r.value|..] == r.value
  {
    if |token| == 0 then None
    else if token[|token| - 1] == CR then Some([CR])
    else if token[|token| - 1] != LF then None
    else if |token| == 1 || token[|token| - 2] != CR then Some([LF])
    else Some([CR, LF])
  }

  /** The line ending of the markers: that of the first modified line, or
      the platform's when there is none. */
  function ChooseEol(modified: SourceTokens, platformEol: seq<Byte>): (eol: seq<Byte>)
    ensures |modified.tokens| == 0 ==> eol == platformEol
    ensures |modified.tokens| > 0 && TerminatorLength(modified.tokens[0]) == 0 ==> eol == platformEol
    ensures |modified.tokens| > 0 && TerminatorLength(modified.tokens[0]) > 0 ==>
              var t := modified.tokens[0];
              eol == t[|t| - TerminatorLength(t)..]
  {
    if |modified.tokens| > 0 then
      match DetectEol(modified.tokens[0])
      case Some(e) => e
      case None => platformEol
    else platformEol
  }

  /** A marker: the caller's text, or the default, then the EOL. */
  function Marker(given: Option<seq<Byte>>, default: string, eol: seq<Byte>): (m: seq<Byte>)
    ensures given.Some? ==> m == given.value + eol
    ensures given.None? ==> m == Ascii(default) + eol
  {
    match given
    case Some(t) => t + eol
    case None => Ascii(default) + eol
  }

  const DefaultModified: string := "<<<<<<< (modified)"
  const DefaultOriginal: string := "||||||| (original)"
  const DefaultSeparator: string := "======="
  const DefaultLatest: string := ">>>>>>> (latest)"

  /** The four markers `svn_diff_mem_string_output_merge` builds, each
      the caller's text or the default, ended by `eol`. */
  function MakeMarkers(opts: MergeOptions, eol: seq<Byte>): Markers {
    Markers(Marker(opts.conflictOriginal, DefaultOriginal, eol),
            Marker(opts.conflictModified, DefaultModified, eol),
            Marker(opts.conflictSeparator, DefaultSeparator, eol),
            Marker(opts.conflictLatest, DefaultLatest, eol))
  }

  /** A marker whose text has no line break is exactly one line of a
      text, terminated by the chosen EOL. */
  lemma MarkerIsOneLine(given: Option<seq<Byte>>, default: string, eol: seq<Byte>)
    requires given.Some? ==> NoEol(given.value)
    requires given.None? ==> NoEol(Ascii(default))
    requires eol == [CR] || eol == [LF] || eol == [CR, LF]
    ensures Tokenize(Marker(given, default, eol)).tokens == [Marker(given, default, eol)]
  {
    var m := Marker(given, default, eol);
    var text := if given.Some? then given.value else Ascii(default);
    assert m == text + eol;
    assert TerminatorLength(m) == |eol|;
    assert m[..|m| - |eol|] == text;
    assert CompleteLine(m);
    assert Concat([m]) == Concat([]) + m;
    TokenizeIsTheLineSplit(m, [m]);
  }

  /** The default marker texts have no line break. */
  lemma DefaultsHaveNoEol()
    ensures NoEol(Ascii(DefaultOriginal)) && NoEol(Ascii(DefaultModified))
    ensures NoEol(Ascii(DefaultSeparator)) && NoEol(Ascii(DefaultLatest))
  {
  }

  /** Each of the four markers the merge sets up is exactly one line,
      ended by the chosen line ending, as long as the caller's marker
      texts have no line break of their own. */
  lemma MarkersAreLines(opts: MergeOptions, eol: seq<Byte>)
    requires eol == [CR] || eol == [LF] || eol == [CR, LF]
    requires opts.conflictOriginal.Some? ==> NoEol(opts.conflictOriginal.value)
    requires opts.conflictModified.Some? ==> NoEol(opts.conflictModified.value)
    requires opts.conflictSeparator.Some? ==> NoEol(opts.conflictSeparator.value)
    requires opts.conflictLatest.Some? ==> NoEol(opts.conflictLatest.value)
    ensures var m := MakeMarkers(opts, eol);
            && Tokenize(m.original).tokens == [m.original]
            && Tokenize(m.modified).tokens == [m.modified]
            && Tokenize(m.separator).tokens == [m.separator]
            && Tokenize(m.latest).tokens == [m.latest]
  {
    DefaultsHaveNoEol();
    MarkerIsOneLine(opts.conflictOriginal, DefaultOriginal, eol);
    MarkerIsOneLine(opts.conflictModified, DefaultModified, eol);
    MarkerIsOneLine(opts.conflictSeparator, DefaultSeparator, eol);
    MarkerIsOneLine(opts.conflictLatest, DefaultLatest, eol);
  }

  /** The baton `svn_diff_mem_string_output_merge` sets up. */
  function MergeBatonFor(original: seq<Byte>, modified: seq<Byte>, latest: seq<Byte>,
                         opts: MergeOptions, platformEol: seq<Byte>): MergeBaton
  {
    var mod := Tokenize(modified);
    MergeBaton(Tokenize(original), mod, Tokenize(latest),
               MakeMarkers(opts, ChooseEol(mod, platformEol)),
               opts.displayOriginalInConflict, opts.displayResolvedConflicts, [])
  }

  /** `svn_diff_mem_string_output_merge`: the merged text. Ranges that
      each copy the modified text and cover it in order give back the
      modified text; ranges that each take the latest text, or copy
      modified text equal to it, and cover the latest text in order give
      back the latest text, so edits made only on the latest side come
      through. */
  function OutputMerge(diff: Diff, original: seq<Byte>, modified: seq<Byte>, latest: seq<Byte>,
                       opts: MergeOptions, platformEol: seq<Byte>): (out: seq<Byte>)
    requires Fits(diff, |Tokenize(original).tokens|, |Tokenize(modified).tokens|, |Tokenize(latest).tokens|)
    ensures TilesModified(diff, 0, 0, |Tokenize(modified).tokens|) ==> out == modified
    ensures FollowsLatest(Tokenize(modified), Tokenize(latest), diff, 0, 0, |Tokenize(latest).tokens|) ==> out == latest
  {
    var b := MergeBatonFor(original, modified, latest, opts, platformEol);
    MergeFromStart(b, diff, modified, latest);
    OutputFrom(b, diff, 0).out
  }

  /** The two promises of `OutputMerge`, for a fresh baton over the
      tokens of `modified` and `latest`. */
  lemma MergeFromStart(b: MergeBaton, diff: Diff, modified: seq<Byte>, latest: seq<Byte>)
    requires b.out == [] && b.modified == Tokenize(modified) && b.latest == Tokenize(latest)
    requires DiffFits(b, diff)
    ensures TilesModified(diff, 0, 0, |b.modified.tokens|) ==> OutputFrom(b, diff, 0).out == modified
    ensures FollowsLatest(b.modified, b.latest, diff, 0, 0, |b.latest.tokens|) ==> OutputFrom(b, diff, 0).out == latest
  {
    hide Tokenize, OutputFrom, TilesModified, FollowsLatest, DiffFits;
    if TilesModified(diff, 0, 0, |b.modified.tokens|) {
      OutputCopiesModified(b, diff, 0, 0, |b.modified.tokens|);
      assert b.modified.tokens[0..|b.modified.tokens|] == b.modified.tokens;
    }
    if FollowsLatest(b.modified, b.latest, diff, 0, 0, |b.latest.tokens|) {
      OutputFollowsLatest(b, diff, 0, 0, |b.latest.tokens|);
      assert b.latest.tokens[0..|b.latest.tokens|] == b.latest.tokens;
    }
  }

  // ---------------------------------------------------------------------
  // What the merged text is

  /** One step of the driver over a range that is not shown resolved. */
  lemma OutputStep(b: MergeBaton, diff: Diff, i: nat)
    requires DiffFits(b, diff) && i < |diff.ranges| && !ShownResolved(b, diff.ranges[i])
    ensures OutputFrom(b, diff, i) == OutputFrom(EmitRange(b, diff.ranges[i]), diff, i + 1)
  {
  }

  /** The text of adjacent token runs is the text of their union. */
  lemma TextSplit(src: SourceTokens, from: nat, mid: nat, to: nat)
    requires from <= mid <= to <= |src.tokens|
    ensures Text(src, from, to - from) == Text(src, from, mid - from) + Text(src, mid, to - mid)
  {
    var toks := src.tokens;
    ConcatAppend(toks[from..mid], toks[mid..to]);
    assert toks[from..mid] + toks[mid..to] == toks[from..to];
  }

  lemma AppendAssoc(a: seq<Byte>, b: seq<Byte>, c: seq<Byte>)
    ensures a + b + c == a + (b + c)
  {
  }

  predicate CopiesModifiedKind(k: RangeKind) {
    k == Common || k == DiffModified || k == DiffCommon
  }

  /** From range `i` on, every range copies the modified text, and the
      ranges cover its tokens `from` up to `to` in order. */
  ghost predicate TilesModified(diff: Diff, i: nat, from: nat, to: nat)
    decreases |diff.ranges| - i
  {
    && i <= |diff.ranges|
    && if i == |diff.ranges| then from == to
       else
         var d := diff.ranges[i];
         && CopiesModifiedKind(d.kind)
         && d.modifiedStart == from
         && TilesModified(diff, i + 1, from + d.modifiedLength, to)
  }

  lemma {:induction false} OutputCopiesModified(b: MergeBaton, diff: Diff, i: nat, from: nat, to: nat)
    requires DiffFits(b, diff) && TilesModified(diff, i, from, to) && to <= |b.modified.tokens|
    ensures from <= to
    ensures OutputFrom(b, diff, i).out == b.out + Text(b.modified, from, to - from)
    decreases |diff.ranges| - i
  {
    if i == |diff.ranges| {
      assert b.modified.tokens[from..to] == [];
    } else {
      var d := diff.ranges[i];
      var mid := from + d.modifiedLength;
      var b' := EmitRange(b, d);
      var t1 := Text(b.modified, from, mid - from);
      assert b' == b.(out := b.out + t1);
      assert mid <= to && OutputFrom(b', diff, i + 1).out == b'.out + Text(b.modified, mid, to - mid) by {
        OutputCopiesModified(b', diff, i + 1, mid, to);
      }
      assert OutputFrom(b, diff, i) == OutputFrom(b', diff, i + 1) by { OutputStep(b, diff, i); }
      TextSplit(b.modified, from, mid, to);
      AppendAssoc(b.out, t1, Text(b.modified, mid, to - mid));
    }
  }

  /** From range `i` on, the ranges cover the latest text's tokens `from`
      up to `to` in order: each is a latest-only range, or a range copied
      from the modified text whose tokens equal the latest's. */
  ghost predicate FollowsLatest(modified: SourceTokens, latest: SourceTokens, diff: Diff, i: nat, from: nat, to: nat)
    decreases |diff.ranges| - i
  {
    && i <= |diff.ranges|
    && if i == |diff.ranges| then from == to
       else
         var d := diff.ranges[i];
         && d.latestStart == from
         && d.modifiedStart + d.modifiedLength <= |modified.tokens|
         && d.latestStart + d.latestLength <= |latest.tokens|
         && (d.kind == DiffLatest
             || (CopiesModifiedKind(d.kind)
                 && Text(modified, d.modifiedStart, d.modifiedLength)
                    == Text(latest, d.latestStart, d.latestLength)))
         && FollowsLatest(modified, latest, diff, i + 1, from + d.latestLength, to)
  }

  lemma {:induction false} OutputFollowsLatest(b: MergeBaton, diff: Diff, i: nat, from: nat, to: nat)
    requires DiffFits(b, diff) && FollowsLatest(b.modified, b.latest, diff, i, from, to)
    requires to <= |b.latest.tokens|
    ensures from <= to
    ensures OutputFrom(b, diff, i).out == b.out + Text(b.latest, from, to - from)
    decreases |diff.ranges| - i
  {
    if i == |diff.ranges| {
      assert b.latest.tokens[from..to] == [];
    } else {
      var d := diff.ranges[i];
      var mid := from + d.latestLength;
      var b' := EmitRange(b, d);
      var t1 := Text(b.latest, from, mid - from);
      assert b' == b.(out := b.out + t1);
      assert mid <= to && OutputFrom(b', diff, i + 1).out == b'.out + Text(b.latest, mid, to - mid) by {
        OutputFollowsLatest(b', diff, i + 1, mid, to);
      }
      assert OutputFrom(b, diff, i) == OutputFrom(b', diff, i + 1) by { OutputStep(b, diff, i); }
      TextSplit(b.latest, from, mid, to);
      AppendAssoc(b.out, t1, Text(b.latest, mid, to - mid));
    }
  }

  /** A conflict shown resolved writes what its own alignment writes; a
      conflict not shown resolved writes its block. */
  lemma ConflictOutput(b: MergeBaton, diff: Diff, i: nat)
    requires DiffFits(b, diff) && i < |diff.ranges| && diff.ranges[i].kind == Conflict
    ensures var d := diff.ranges[i];
            OutputFrom(b, diff, i)
              == OutputFrom(if ShownResolved(b, d) then OutputFrom(b, d.resolved.value, 0)
                            else ConflictBlock(b, d), diff, i + 1)
  {
  }

  // ---------------------------------------------------------------------
  // Two merges worked through

  function Line1(): seq<Byte> { [49, LF] }   // "1\n"
  function Line2(): seq<Byte> { [50, LF] }   // "2\n"
  function Line3(): seq<Byte> { [51, LF] }   // "3\n"
  function LineZ(): seq<Byte> { [90, LF] }   // "Z\n"

  /** The alignment of "1\n2\n3\n" (original and modified) against
      "1\nZ\n3\n" (latest): the middle line changed on the latest side. */
  function LatestEditDiff(): Diff {
    Diff([DiffRange(Common, 0, 1, 0, 1, 0, 1, None),
          DiffRange(DiffLatest, 1, 1, 1, 1, 1, 1, None),
          DiffRange(Common, 2, 1, 2, 1, 2, 1, None)])
  }

  /** Three complete two-byte lines tokenize back to themselves. */
  lemma ThreeLines(x: seq<Byte>, y: seq<Byte>, z: seq<Byte>)
    requires |x| == 2 && x[1] == LF && !IsEol(x[0])
    requires |y| == 2 && y[1] == LF && !IsEol(y[0])
    requires |z| == 2 && z[1] == LF && !IsEol(z[0])
    ensures Tokenize(x + y + z).tokens == [x, y, z]
  {
    assert x[..1] == [x[0]] && y[..1] == [y[0]] && z[..1] == [z[0]];
    assert CompleteLine(x) && CompleteLine(y) && CompleteLine(z);
    var ls := [x, y, z];
    assert ls[..2][..1] == [x];
    assert Concat(ls) == Concat(ls[..2]) + z;
    assert Concat(ls[..2]) == Concat([x]) + y;
    assert Concat([x]) == Concat([]) + x;
    TokenizeIsTheLineSplit(x + y + z, ls);
  }

  /** A single complete two-byte line tokenizes back to itself. */
  lemma OneLine(t: seq<Byte>)
    requires |t| == 2 && t[1] == LF && !IsEol(t[0])
    ensures Tokenize(t).tokens == [t] && Text(Tokenize(t), 0, 1) == t
  {
    assert t[..1] == [t[0]];
    assert CompleteLine(t);
    assert Concat([t]) == Concat([]) + t;
    TokenizeIsTheLineSplit(t, [t]);
    assert Tokenize(t).tokens[0..1] == [t];
  }

  /** Whatever the markers and flags, merging an edit made only on the
      latest side gives the latest text. */
  lemma LatestOnlyEditExample(opts: MergeOptions, platformEol: seq<Byte>)
    ensures var base := Line1() + Line2() + Line3();
            var latest := Line1() + LineZ() + Line3();
            && Fits(LatestEditDiff(), |Tokenize(base).tokens|, |Tokenize(base).tokens|, |Tokenize(latest).tokens|)
            && OutputMerge(LatestEditDiff(), base, base, latest, opts, platformEol) == latest
  {
    var base := Line1() + Line2() + Line3();
    var latest := Line1() + LineZ() + Line3();
    ThreeLines(Line1(), Line2(), Line3());
    ThreeLines(Line1(), LineZ(), Line3());
    var mod := Tokenize(base);
    var lat := Tokenize(latest);
    var diff := LatestEditDiff();
    assert mod.tokens[0..1] == lat.tokens[0..1];
    assert mod.tokens[2..3] == lat.tokens[2..3];
    assert FollowsLatest(mod, lat, diff, 3, 3, 3);
    assert FollowsLatest(mod, lat, diff, 2, 2, 3);
    assert FollowsLatest(mod, lat, diff, 1, 1, 3);
    assert FollowsLatest(mod, lat, diff, 0, 0, 3);
  }

  /** An alignment of one range that is not shown resolved writes what
      that range's callback writes. */
  lemma OnlyRange(b: MergeBaton, diff: Diff)
    requires |diff.ranges| == 1 && DiffFits(b, diff) && !ShownResolved(b, diff.ranges[0])
    ensures OutputFrom(b, diff, 0) == EmitRange(b, diff.ranges[0])
  {
    OutputStep(b, diff, 0);
  }

  /** The conflict block of a fresh output when the original is not shown. */
  lemma BlockWithoutOriginal(b: MergeBaton, d: DiffRange, x: seq<Byte>, y: seq<Byte>)
    requires RangeFits(b, d) && !b.displayOriginalInConflict && b.out == []
    requires Text(b.modified, d.modifiedStart, d.modifiedLength) == x
    requires Text(b.latest, d.latestStart, d.latestLength) == y
    ensures ConflictBlock(b, d).out == b.markers.modified + x + b.markers.separator + y + b.markers.latest
  {
    var m := b.markers;
    assert [] + m.modified == m.modified;
    assert m.modified + x + [] == m.modified + x;
  }

  function ConflictDiff(): Diff {
    Diff([DiffRange(Conflict, 0, 1, 0, 1, 0, 1, None)])
  }

  lemma ConflictDiffFits(n: nat, m: nat, l: nat)
    requires n >= 1 && m >= 1 && l >= 1
    ensures Fits(ConflictDiff(), n, m, l)
  {
    assert ConflictDiff().ranges[0].resolved == None;
  }

  function DefaultOptions(): MergeOptions {
    MergeOptions(None, None, None, None, false, false)
  }

  /** The default markers, each ended by "\n". */
  function DefaultLfMarkers(): Markers {
    Markers(Ascii(DefaultOriginal) + [LF], Ascii(DefaultModified) + [LF],
            Ascii(DefaultSeparator) + [LF], Ascii(DefaultLatest) + [LF])
  }

  /** The baton of a merge of three one-line texts with default options:
      the markers end in the modified text's "\n", whatever the
      platform's line ending. */
  lemma OneLineBaton(original: seq<Byte>, modified: seq<Byte>, latest: seq<Byte>, platformEol: seq<Byte>)
    requires |original| == 2 && original[1] == LF && !IsEol(original[0])
    requires |modified| == 2 && modified[1] == LF && !IsEol(modified[0])
    requires |latest| == 2 && latest[1] == LF && !IsEol(latest[0])
    ensures var b := MergeBatonFor(original, modified, latest, DefaultOptions(), platformEol);
            && |b.original.tokens| == 1 && |b.modified.tokens| == 1 && |b.latest.tokens| == 1
            && Text(b.modified, 0, 1) == modified && Text(b.latest, 0, 1) == latest
            && b.markers == DefaultLfMarkers()
            && !b.displayOriginalInConflict && !b.displayResolvedConflicts && b.out == []
  {
    OneLine(original);
    OneLine(modified);
    OneLine(latest);
    assert DetectEol(modified) == Some([LF]);
  }

  /** One line in conflict on all three sides, default markers, original
      not shown: the modified line and the latest line between the
      markers, each marker ended by the modified text's "\n". */
  lemma ConflictExample(original: seq<Byte>, modified: seq<Byte>, latest: seq<Byte>, platformEol: seq<Byte>)
    requires original == [97, LF] && modified == [98, LF] && latest == [99, LF]   // "a\n", "b\n", "c\n"
    ensures Fits(ConflictDiff(), |Tokenize(original).tokens|, |Tokenize(modified).tokens|,
                 |Tokenize(latest).tokens|)
    ensures OutputMerge(ConflictDiff(), original, modified, latest, DefaultOptions(), platformEol)
            == (Ascii(DefaultModified) + [LF]) + modified
               + (Ascii(DefaultSeparator) + [LF]) + latest
               + (Ascii(DefaultLatest) + [LF])
  {
    OneLineBaton(original, modified, latest, platformEol);
    var b := MergeBatonFor(original, modified, latest, DefaultOptions(), platformEol);
    ConflictDiffFits(1, 1, 1);
    var d := ConflictDiff().ranges[0];
    OnlyRange(b, ConflictDiff());
    BlockWithoutOriginal(b, d, modified, latest);
  }
}
