/** The in-memory token source of `diff_memory.c`: the line tokenizer
    (`fill_source_tokens`) and the adapter that feeds the tokens of up to
    four sources to the alignment primitive (`datasource_to_index`,
    `datasource_get_next_token`, `token_compare`). */
module Tokens {

  import opened Wrappers
  import opened Bytes

  /** One tokenized source: the line tokens (byte ranges of `source`, in
      order), the cursor of the next token to hand out, and whether the
      text ends without a line terminator. */
  datatype SourceTokens = SourceTokens(
    tokens: seq<seq<Byte>>,
    nextToken: nat,
    source: seq<Byte>,
    endsWithoutEol: bool)

  // ---------------------------------------------------------------------
  // What a line token is

  /** Length of the line terminator `t` ends with: 2 for CR LF, 1 for a
      lone CR or LF, 0 when `t` does not end in a terminator. */
  function TerminatorLength(t: seq<Byte>): nat
  {
    if |t| >= 2 && t[|t| - 2] == CR && t[|t| - 1] == LF then 2
    else if |t| >= 1 && IsEol(t[|t| - 1]) then 1
    else 0
  }

  predicate NoEol(s: seq<Byte>) {
    forall i :: 0 <= i < |s| ==> !IsEol(s[i])
  }

  /** A whole line: a terminator-free body followed by one terminator. */
  predicate CompleteLine(t: seq<Byte>) {
    TerminatorLength(t) > 0 && NoEol(t[..|t| - TerminatorLength(t)])
  }

  /** The unterminated tail of a text. */
  predicate PartialLine(t: seq<Byte>) {
    |t| > 0 && NoEol(t)
  }

  predicate EndsWithCr(t: seq<Byte>) {
    |t| > 0 && t[|t| - 1] == CR
  }

  predicate StartsWithLf(t: seq<Byte>) {
    |t| > 0 && t[0] == LF
  }

  /** No CR LF pair is split across two consecutive tokens. */
  predicate NoSplitCrLf(toks: seq<seq<Byte>>) {
    forall i, j :: 0 <= i < |toks| && i < j < |toks| && j == i + 1 ==> EndsWithCr(toks[i]) ==> !StartsWithLf(toks[j])
  }

  /** Every token is a complete line, except that the last one may be an
      unterminated tail, and CR LF is never split. */
  predicate WellFormedLines(toks: seq<seq<Byte>>) {
    && (forall i :: 0 <= i < |toks| - 1 ==> CompleteLine(toks[i]))
    && (|toks| > 0 ==> CompleteLine(toks[|toks| - 1]) || PartialLine(toks[|toks| - 1]))
    && NoSplitCrLf(toks)
  }

  // ---------------------------------------------------------------------
  // The tokenizer

  /** The state the scanning loop of `fill_source_tokens` keeps between
      iterations: `start` is the beginning of the current line, `cur` the
      byte under inspection, `acc` the tokens pushed so far. */
  predicate ScanState(text: seq<Byte>, start: nat, cur: nat, acc: seq<seq<Byte>>) {
    && start <= cur <= |text|
    && Concat(acc) == text[..start]
    && (forall i :: 0 <= i < |acc| ==> CompleteLine(acc[i]))
    && NoSplitCrLf(acc)
    && NoEol(text[start..cur])
    && (|acc| > 0 && EndsWithCr(acc[|acc| - 1]) ==> !StartsWithLf(text[start..]))
    && (start > 0 ==> IsEol(text[start - 1]))
  }

  /** The byte that ends the line under the cursor: the LF of a CR LF pair,
      otherwise the byte itself. Past the last byte the look-ahead sees
      "not LF". */
  function LineEndAt(text: seq<Byte>, cur: nat): (c: nat)
    requires cur < |text|
    ensures cur <= c < |text|
  {
    if text[cur] == CR && cur + 1 < |text| && text[cur + 1] == LF then cur + 1 else cur
  }

  /** The token that `fill_source_tokens` pushes for a line ending at `c`
      is a complete line. */
  lemma PushedTokenIsLine(text: seq<Byte>, start: nat, cur: nat)
    requires start <= cur < |text| && NoEol(text[start..cur])
    requires IsEol(text[LineEndAt(text, cur)])
    ensures var c := LineEndAt(text, cur);
      && CompleteLine(text[start..c + 1])
      && (EndsWithCr(text[start..c + 1]) ==> !StartsWithLf(text[c + 1..]))
  {
    var c := LineEndAt(text, cur);
    var t := text[start..c + 1];
    if c == cur {
      assert t[..|t| - 1] == text[start..cur];
      if |t| >= 2 {
        assert t[|t| - 2] == text[start..cur][cur - 1 - start];
      }
      assert TerminatorLength(t) == 1;
    } else {
      assert t[..|t| - 2] == text[start..cur];
    }
  }

  lemma NoSplitSnoc(acc: seq<seq<Byte>>, t: seq<Byte>)
    requires NoSplitCrLf(acc)
    requires |acc| > 0 && EndsWithCr(acc[|acc| - 1]) ==> !StartsWithLf(t)
    ensures NoSplitCrLf(acc + [t])
  {
    var acc' := acc + [t];
    forall i, j | 0 <= i < j < |acc'| && j == i + 1
      ensures EndsWithCr(acc'[i]) ==> !StartsWithLf(acc'[j])
    {
      if j < |acc| {
        assert acc'[i] == acc[i] && acc'[j] == acc[j];
      }
    }
  }

  lemma ConcatSnoc(acc: seq<seq<Byte>>, t: seq<Byte>)
    ensures Concat(acc + [t]) == Concat(acc) + t
  {
    assert (acc + [t])[..|acc + [t]| - 1] == acc;
  }

  lemma AllCompleteSnoc(acc: seq<seq<Byte>>, t: seq<Byte>)
    requires forall i :: 0 <= i < |acc| ==> CompleteLine(acc[i])
    requires CompleteLine(t)
    ensures forall i :: 0 <= i < |acc + [t]| ==> CompleteLine((acc + [t])[i])
  {
    forall i | 0 <= i < |acc + [t]|
      ensures CompleteLine((acc + [t])[i])
    {
      if i < |acc| {
        assert (acc + [t])[i] == acc[i];
      }
    }
  }

  /** The text up to the end of a pushed line is the tokens so far and
      the line. */
  lemma PushConcat(text: seq<Byte>, start: nat, c: nat, acc: seq<seq<Byte>>)
    requires start <= c < |text| && Concat(acc) == text[..start]
    ensures Concat(acc + [text[start..c + 1]]) == text[..c + 1]
  {
    ConcatSnoc(acc, text[start..c + 1]);
    assert text[..c + 1] == text[..start] + text[start..c + 1];
  }

  /** A pushed line does not split a CR LF with the token before it. */
  lemma PushNoSplit(text: seq<Byte>, start: nat, c: nat, acc: seq<seq<Byte>>)
    requires start <= c < |text| && NoSplitCrLf(acc)
    requires |acc| > 0 && EndsWithCr(acc[|acc| - 1]) ==> !StartsWithLf(text[start..])
    ensures NoSplitCrLf(acc + [text[start..c + 1]])
  {
    var t := text[start..c + 1];
    assert t[0] == text[start..][0];
    NoSplitSnoc(acc, t);
  }

  /** The loop state right after a line ending at `c` was pushed. */
  lemma PushedState(text: seq<Byte>, c: nat, acc: seq<seq<Byte>>)
    requires c < |text| && IsEol(text[c])
    requires Concat(acc) == text[..c + 1]
    requires forall i :: 0 <= i < |acc| ==> CompleteLine(acc[i])
    requires NoSplitCrLf(acc)
    requires |acc| > 0 && EndsWithCr(acc[|acc| - 1]) ==> !StartsWithLf(text[c + 1..])
    ensures ScanState(text, c + 1, c + 1, acc)
  {
    assert text[c + 1..c + 1] == [];
  }

  /** The facts about the token list once the line under the cursor is
      pushed. */
  lemma PushFacts(text: seq<Byte>, start: nat, cur: nat, acc: seq<seq<Byte>>)
    requires start <= cur < |text| && NoEol(text[start..cur])
    requires IsEol(text[LineEndAt(text, cur)])
    requires Concat(acc) == text[..start]
    requires forall i :: 0 <= i < |acc| ==> CompleteLine(acc[i])
    requires NoSplitCrLf(acc)
    requires |acc| > 0 && EndsWithCr(acc[|acc| - 1]) ==> !StartsWithLf(text[start..])
    ensures var c := LineEndAt(text, cur);
            var acc' := acc + [text[start..c + 1]];
            && Concat(acc') == text[..c + 1]
            && (forall i :: 0 <= i < |acc'| ==> CompleteLine(acc'[i]))
            && NoSplitCrLf(acc')
            && (EndsWithCr(acc'[|acc'| - 1]) ==> !StartsWithLf(text[c + 1..]))
            && ScanState(text, c + 1, c + 1, acc')
  {
    var c := LineEndAt(text, cur);
    var t := text[start..c + 1];
    PushedTokenIsLine(text, start, cur);
    AllCompleteSnoc(acc, t);
    PushConcat(text, start, c, acc);
    PushNoSplit(text, start, c, acc);
    assert (acc + [t])[|acc + [t]| - 1] == t;
    PushedState(text, c, acc + [t]);
  }

  lemma ScanPushLine(text: seq<Byte>, start: nat, cur: nat, acc: seq<seq<Byte>>)
    requires ScanState(text, start, cur, acc) && cur < |text|
    requires IsEol(text[LineEndAt(text, cur)])
    ensures ScanState(text, LineEndAt(text, cur) + 1, LineEndAt(text, cur) + 1,
                      acc + [text[start..LineEndAt(text, cur) + 1]])
  {
    hide ScanState;
    var c := LineEndAt(text, cur);
    ScanStateParts(text, start, cur, acc);
    PushFacts(text, start, cur, acc);
  }

  /** The conjuncts of the loop state, one by one. */
  lemma ScanStateParts(text: seq<Byte>, start: nat, cur: nat, acc: seq<seq<Byte>>)
    requires ScanState(text, start, cur, acc)
    ensures start <= cur <= |text| && Concat(acc) == text[..start]
    ensures forall i :: 0 <= i < |acc| ==> CompleteLine(acc[i])
    ensures NoSplitCrLf(acc) && NoEol(text[start..cur])
    ensures |acc| > 0 && EndsWithCr(acc[|acc| - 1]) ==> !StartsWithLf(text[start..])
  {
  }

  lemma ScanExtendLine(text: seq<Byte>, start: nat, cur: nat, acc: seq<seq<Byte>>)
    requires ScanState(text, start, cur, acc) && cur < |text|
    requires !IsEol(text[LineEndAt(text, cur)])
    ensures LineEndAt(text, cur) == cur
    ensures ScanState(text, start, cur + 1, acc)
  {
    assert text[start..cur + 1] == text[start..cur] + [text[cur]];
  }

  /** A list of complete lines followed by a complete line or a tail,
      with no CR LF split, is well formed. */
  lemma WellFormedSnoc(acc: seq<seq<Byte>>, t: seq<Byte>)
    requires forall i :: 0 <= i < |acc| ==> CompleteLine(acc[i])
    requires CompleteLine(t) || PartialLine(t)
    requires NoSplitCrLf(acc + [t])
    ensures WellFormedLines(acc + [t])
  {
    var acc' := acc + [t];
    forall i | 0 <= i < |acc'| - 1
      ensures CompleteLine(acc'[i])
    {
      assert acc'[i] == acc[i];
    }
  }

  /** The loop ends inside an unterminated tail: it becomes the last token. */
  lemma ScanFinishTail(text: seq<Byte>, start: nat, acc: seq<seq<Byte>>)
    requires ScanState(text, start, |text|, acc) && start < |text|
    ensures Concat(acc + [text[start..]]) == text
    ensures WellFormedLines(acc + [text[start..]])
    ensures !IsEol(text[|text| - 1])
  {
    var t := text[start..];
    ConcatSnoc(acc, t);
    assert text[..start] + t == text;
    assert t[|t| - 1] == text[|text| - 1];
    assert PartialLine(t);
    NoSplitSnoc(acc, t);
    WellFormedSnoc(acc, t);
  }

  /** The loop ends right after a terminator: the tokens are complete. */
  lemma ScanFinishLines(text: seq<Byte>, acc: seq<seq<Byte>>)
    requires ScanState(text, |text|, |text|, acc)
    ensures Concat(acc) == text
    ensures WellFormedLines(acc)
    ensures |text| > 0 ==> IsEol(text[|text| - 1])
  {
    assert text[..|text|] == text;
  }

  /** The scanning loop of `fill_source_tokens`, one iteration per call.
      The result is the token list and the `ends_without_eol` flag. */
  function Scan(text: seq<Byte>, start: nat, cur: nat, acc: seq<seq<Byte>>): (r: (seq<seq<Byte>>, bool))
    requires start <= cur <= |text|
    ensures |r.0| >= |acc| && r.0[..|acc|] == acc
    decreases |text| - cur
  {
    if cur == |text| then
      if start != |text| then (acc + [text[start..]], true) else (acc, false)
    else
      var c := LineEndAt(text, cur);
      if IsEol(text[c]) then
        var r := Scan(text, c + 1, c + 1, acc + [text[start..c + 1]]);
        assert r.0[..|acc|] == (r.0[..|acc| + 1])[..|acc|];
        r
      else
        Scan(text, start, c + 1, acc)
  }

  /** What the loop delivers: tokens that concatenate to the text and are
      well-formed lines, and the flag saying whether the text ends without
      a terminator. */
  ghost predicate Scanned(text: seq<Byte>, r: (seq<seq<Byte>>, bool)) {
    && Concat(r.0) == text
    && WellFormedLines(r.0)
    && (r.1 <==> |text| > 0 && !IsEol(text[|text| - 1]))
  }

  /** The end of the loop delivers what it should. */
  lemma ScanFinishes(text: seq<Byte>, start: nat, acc: seq<seq<Byte>>)
    requires ScanState(text, start, |text|, acc)
    ensures Scanned(text, Scan(text, start, |text|, acc))
  {
    if start != |text| {
      ScanFinishTail(text, start, acc);
    } else {
      ScanFinishLines(text, acc);
    }
  }

  /** One iteration of the loop that ends a line at `c` keeps what the
      rest of the loop delivers. */
  lemma ScanPushes(text: seq<Byte>, start: nat, cur: nat, acc: seq<seq<Byte>>, c: nat)
    requires start <= cur < |text| && c == LineEndAt(text, cur) && IsEol(text[c])
    requires Scanned(text, Scan(text, c + 1, c + 1, acc + [text[start..c + 1]]))
    ensures Scanned(text, Scan(text, start, cur, acc))
  {
    assert Scan(text, start, cur, acc) == Scan(text, c + 1, c + 1, acc + [text[start..c + 1]]);
  }

  /** One iteration of the loop inside a line likewise. */
  lemma ScanExtends(text: seq<Byte>, start: nat, cur: nat, acc: seq<seq<Byte>>)
    requires start <= cur < |text| && !IsEol(text[LineEndAt(text, cur)])
    requires Scanned(text, Scan(text, start, cur + 1, acc))
    ensures Scanned(text, Scan(text, start, cur, acc))
  {
    assert Scan(text, start, cur, acc) == Scan(text, start, cur + 1, acc);
  }

  /** The loop keeps its state, so what it returns is `Scanned`. */
  lemma {:induction false} ScanCorrect(text: seq<Byte>, start: nat, cur: nat, acc: seq<seq<Byte>>)
    requires ScanState(text, start, cur, acc)
    ensures Scanned(text, Scan(text, start, cur, acc))
    decreases |text| - cur, 1
  {
    if cur == |text| {
      ScanFinishes(text, start, acc);
    } else if IsEol(text[LineEndAt(text, cur)]) {
      ScanLineEnd(text, start, cur, acc);
    } else {
      ScanInLine(text, start, cur, acc);
    }
  }

  /** The iteration that ends a line. */
  lemma {:induction false} ScanLineEnd(text: seq<Byte>, start: nat, cur: nat, acc: seq<seq<Byte>>)
    requires ScanState(text, start, cur, acc) && cur < |text| && IsEol(text[LineEndAt(text, cur)])
    ensures Scanned(text, Scan(text, start, cur, acc))
    decreases |text| - cur, 0
  {
    var c := LineEndAt(text, cur);
    ScanPushLine(text, start, cur, acc);
    ScanCorrect(text, c + 1, c + 1, acc + [text[start..c + 1]]);
    ScanPushes(text, start, cur, acc, c);
  }

  /** The iteration inside a line. */
  lemma {:induction false} ScanInLine(text: seq<Byte>, start: nat, cur: nat, acc: seq<seq<Byte>>)
    requires ScanState(text, start, cur, acc) && cur < |text| && !IsEol(text[LineEndAt(text, cur)])
    ensures Scanned(text, Scan(text, start, cur, acc))
    decreases |text| - cur, 0
  {
    ScanExtendLine(text, start, cur, acc);
    ScanCorrect(text, start, cur + 1, acc);
    ScanExtends(text, start, cur, acc);
  }

  /** `fill_source_tokens`: split `text` into line tokens without copying. */
  function Tokenize(text: seq<Byte>): (src: SourceTokens)
    ensures src.source == text && src.nextToken == 0
    ensures Concat(src.tokens) == text
    ensures WellFormedLines(src.tokens)
    ensures src.endsWithoutEol <==> |text| > 0 && !IsEol(text[|text| - 1])
    ensures text == [] ==> src.tokens == []
  {
    assert ScanState(text, 0, 0, []);
    ScanCorrect(text, 0, 0, []);
    var r := Scan(text, 0, 0, []);
    SourceTokens(r.0, 0, text, r.1)
  }

  lemma TokenNonEmpty(toks: seq<seq<Byte>>, i: nat)
    requires WellFormedLines(toks) && i < |toks|
    ensures |toks[i]| > 0
  {
  }

  lemma {:induction false} ConcatEmpty(toks: seq<seq<Byte>>)
    requires WellFormedLines(toks) && Concat(toks) == []
    ensures toks == []
  {
    if toks != [] {
      TokenNonEmpty(toks, |toks| - 1);
    }
  }

  lemma WellFormedTail(toks: seq<seq<Byte>>)
    requires WellFormedLines(toks) && |toks| > 0
    ensures WellFormedLines(toks[1..])
  {
    var t := toks[1..];
    forall i | 0 <= i < |t| - 1
      ensures CompleteLine(t[i])
    {
      assert t[i] == toks[i + 1];
    }
    forall i, j | 0 <= i < j < |t| && j == i + 1
      ensures EndsWithCr(t[i]) ==> !StartsWithLf(t[j])
    {
      assert t[i] == toks[i + 1] && t[j] == toks[j + 1];
    }
  }

  /** A complete line `x` that is a proper prefix of a line `y` must stop
      at the CR of the CR LF pair that ends `y`. */
  lemma ProperPrefixLine(x: seq<Byte>, y: seq<Byte>)
    requires CompleteLine(x) && (CompleteLine(y) || PartialLine(y))
    requires |x| < |y| && x == y[..|x|]
    ensures EndsWithCr(x) && y[|x|] == LF
  {
    assert IsEol(y[|x| - 1]);
    if PartialLine(y) {
      assert false;
    }
  }

  /** Line `x` followed by text starting with `rest`, and line `y`, both
      prefixes of one text: when `x` is not longer, they are equal. */
  lemma LinePrefixesEqual(x: seq<Byte>, rest: seq<Byte>, y: seq<Byte>, text: seq<Byte>)
    requires text == x + rest && y <= text && |x| <= |y|
    requires rest != [] ==> CompleteLine(x)
    requires rest == [] ==> |y| <= |x|
    requires CompleteLine(y) || PartialLine(y)
    requires EndsWithCr(x) ==> !StartsWithLf(rest)
    ensures x == y
  {
    assert x == y[..|x|];
    if |x| < |y| {
      ProperPrefixLine(x, y);
    }
  }

  /** What a well-formed token list says about its first token. */
  lemma FirstLineFacts(toks: seq<seq<Byte>>)
    requires WellFormedLines(toks) && |toks| > 0
    ensures CompleteLine(toks[0]) || PartialLine(toks[0])
    ensures |toks| > 1 ==> CompleteLine(toks[0]) && |toks[1]| > 0
    ensures |toks| > 1 ==> EndsWithCr(toks[0]) ==> !StartsWithLf(toks[1])
  {
    if |toks| > 1 {
      TokenNonEmpty(toks, 1);
    }
  }

  /** In two well-formed token lists of the same text, the shorter first
      token equals the other's first token. */
  lemma FirstLineDetermined(a: seq<seq<Byte>>, b: seq<seq<Byte>>)
    requires WellFormedLines(a) && WellFormedLines(b) && |a| > 0 && |b| > 0
    requires Concat(a) == Concat(b)
    requires |a[0]| <= |b[0]|
    ensures a[0] == b[0]
  {
    FirstLineFacts(a);
    FirstLineFacts(b);
    FirstLineOfText(a, b);
  }

  /** A list whose first string is non-empty concatenates to a string
      that starts with that string's first byte. */
  lemma ConcatHead(ss: seq<seq<Byte>>)
    requires |ss| > 0 && |ss[0]| > 0
    ensures Concat(ss) != [] && Concat(ss)[0] == ss[0][0]
  {
    ConcatCons(ss[0], ss[1..]);
    assert [ss[0]] + ss[1..] == ss;
  }

  lemma FirstLineOfText(a: seq<seq<Byte>>, b: seq<seq<Byte>>)
    requires |a| > 0 && |b| > 0 && Concat(a) == Concat(b) && |a[0]| <= |b[0]|
    requires CompleteLine(b[0]) || PartialLine(b[0])
    requires |a| > 1 ==> CompleteLine(a[0]) && |a[1]| > 0
    requires |a| > 1 ==> EndsWithCr(a[0]) ==> !StartsWithLf(a[1])
    ensures a[0] == b[0]
  {
    var x, y := a[0], b[0];
    var text := Concat(a);
    var rest := Concat(a[1..]);
    ConcatCons(x, a[1..]);
    ConcatCons(y, b[1..]);
    assert [x] + a[1..] == a && [y] + b[1..] == b;
    assert text == x + rest;
    assert y <= text;
    if |a| > 1 {
      ConcatHead(a[1..]);
    } else {
      assert a[1..] == [];
    }
    LinePrefixesEqual(x, rest, y, text);
  }

  /** The tokenizer's contract pins its result down: two well-formed token
      lists with the same concatenation are the same list. */
  lemma {:induction false} LinesUnique(a: seq<seq<Byte>>, b: seq<seq<Byte>>)
    requires WellFormedLines(a) && WellFormedLines(b)
    requires Concat(a) == Concat(b)
    ensures a == b
    decreases |a|
  {
    if a == [] {
      ConcatEmpty(b);
    } else if b == [] {
      ConcatEmpty(a);
    } else {
      if |a[0]| <= |b[0]| {
        FirstLineDetermined(a, b);
      } else {
        FirstLineDetermined(b, a);
      }
      ConcatCons(a[0], a[1..]);
      ConcatCons(b[0], b[1..]);
      assert [a[0]] + a[1..] == a && [b[0]] + b[1..] == b;
      var text := Concat(a);
      assert Concat(a[1..]) == text[|a[0]|..];
      assert Concat(b[1..]) == text[|b[0]|..];
      WellFormedTail(a);
      WellFormedTail(b);
      LinesUnique(a[1..], b[1..]);
      assert a == [a[0]] + a[1..];
    }
  }

  /** Any well-formed line split of `text` is the tokenizer's. */
  lemma TokenizeIsTheLineSplit(text: seq<Byte>, toks: seq<seq<Byte>>)
    requires WellFormedLines(toks) && Concat(toks) == text
    ensures Tokenize(text).tokens == toks
  {
    LinesUnique(Tokenize(text).tokens, toks);
  }

  // ---------------------------------------------------------------------
  // The token-source adapter

  datatype Datasource = Original | Modified | Latest | Ancestor

  function IndexToDatasource(i: nat): Datasource
    requires i < 4
  {
    if i == 0 then Original else if i == 1 then Modified else if i == 2 then Latest else Ancestor
  }

  /** `datasource_to_index`: the slot of each datasource in the baton. */
  function DatasourceToIndex(d: Datasource): (i: nat)
    ensures i < 4
    ensures IndexToDatasource(i) == d
  {
    match d
    case Original => 0
    case Modified => 1
    case Latest => 2
    case Ancestor => 3
  }

  /** The baton handed to the alignment primitive: the tokenized sources
      and the two collaborators that are not part of this model, the
      normalizer (`svn_diff__normalize_buffer`, with the comparison
      options already applied) and the checksum (`svn_diff__adler32`). */
  datatype DiffMemBaton = DiffMemBaton(
    sources: seq<SourceTokens>,
    normalize: seq<Byte> -> seq<Byte>,
    checksum: seq<Byte> -> nat)

  /** A token handed to the alignment primitive with its hash. */
  datatype Fetched = Fetched(hash: nat, token: seq<Byte>)

  /** `datasource_get_next_token`: hand out the token under the cursor of
      source `d` and advance that cursor; `None` once it is exhausted. */
  function GetNextToken(b: DiffMemBaton, d: Datasource): (r: (Option<Fetched>, DiffMemBaton))
    requires DatasourceToIndex(d) < |b.sources|
    ensures var s := b.sources[DatasourceToIndex(d)];
      && |r.1.sources| == |b.sources|
      && (r.0.Some? <==> s.nextToken < |s.tokens|)
      && (r.0.Some? ==>
            && r.0.value.token == s.tokens[s.nextToken]
            && r.0.value.hash == b.checksum(b.normalize(s.tokens[s.nextToken]))
            && r.1.sources[DatasourceToIndex(d)] == s.(nextToken := s.nextToken + 1))
      && (r.0.None? ==> r.1.sources == b.sources)
      && (forall j :: 0 <= j < |b.sources| && j != DatasourceToIndex(d) ==> r.1.sources[j] == b.sources[j])
    ensures r.1.normalize == b.normalize && r.1.checksum == b.checksum
  {
    var i := DatasourceToIndex(d);
    var s := b.sources[i];
    if s.nextToken < |s.tokens| then
      var tok := s.tokens[s.nextToken];
      (Some(Fetched(b.checksum(b.normalize(tok)), tok)),
       b.(sources := b.sources[i := s.(nextToken := s.nextToken + 1)]))
    else
      (None, b)
  }

  /** What the alignment primitive sees of one source: the tokens handed
      out by repeated `GetNextToken` calls until it returns `None`. They
      are exactly the source's tokens from the cursor on, in order. */
  function DrainTokens(b: DiffMemBaton, d: Datasource): (r: seq<seq<Byte>>)
    requires DatasourceToIndex(d) < |b.sources|
    requires b.sources[DatasourceToIndex(d)].nextToken <= |b.sources[DatasourceToIndex(d)].tokens|
    ensures var s := b.sources[DatasourceToIndex(d)]; r == s.tokens[s.nextToken..]
    decreases |b.sources[DatasourceToIndex(d)].tokens| - b.sources[DatasourceToIndex(d)].nextToken
  {
    var (f, b') := GetNextToken(b, d);
    match f
    case None => []
    case Some(t) => [t.token] + DrainTokens(b', d)
  }

  // ---------------------------------------------------------------------
  // Token comparison

  /** The sign of `memcmp` on two byte strings of equal length: the first
      differing byte decides, compared as unsigned. */
  function Memcmp(a: seq<Byte>, b: seq<Byte>): (r: int)
    requires |a| == |b|
    ensures -1 <= r <= 1
    ensures r == 0 <==> a == b
    decreases |a|
  {
    if a == [] then 0
    else if a[0] < b[0] then -1
    else if a[0] > b[0] then 1
    else
      var r := Memcmp(a[1..], b[1..]);
      assert a == [a[0]] + a[1..] && b == [b[0]] + b[1..];
      r
  }

  lemma {:induction false} MemcmpAntisymmetric(a: seq<Byte>, b: seq<Byte>)
    requires |a| == |b|
    ensures Memcmp(b, a) == -Memcmp(a, b)
    decreases |a|
  {
    if a != [] && a[0] == b[0] {
      MemcmpAntisymmetric(a[1..], b[1..]);
    }
  }

  lemma {:induction false} MemcmpTransitive(a: seq<Byte>, b: seq<Byte>, c: seq<Byte>)
    requires |a| == |b| == |c|
    requires Memcmp(a, b) < 0 && Memcmp(b, c) < 0
    ensures Memcmp(a, c) < 0
    decreases |a|
  {
    if a[0] == b[0] && b[0] == c[0] {
      MemcmpTransitive(a[1..], b[1..], c[1..]);
    }
  }

  /** `token_compare`: normalize both tokens, order a shorter normalized
      token first, and compare equal-length ones bytewise. */
  function TokenCompare(normalize: seq<Byte> -> seq<Byte>, t1: seq<Byte>, t2: seq<Byte>): (r: int)
    ensures -1 <= r <= 1
    ensures r == 0 <==> normalize(t1) == normalize(t2)
    ensures |normalize(t1)| < |normalize(t2)| ==> r == -1
    ensures |normalize(t1)| > |normalize(t2)| ==> r == 1
  {
    var n1, n2 := normalize(t1), normalize(t2);
    if |n1| != |n2| then
      if |n1| < |n2| then -1 else 1
    else if |n1| == 0 then 0
    else Memcmp(n1, n2)
  }

  /** Swapping the tokens flips the sign of the comparison. */
  lemma TokenCompareAntisymmetric(normalize: seq<Byte> -> seq<Byte>, t1: seq<Byte>, t2: seq<Byte>)
    ensures TokenCompare(normalize, t2, t1) == -TokenCompare(normalize, t1, t2)
  {
    var n1, n2 := normalize(t1), normalize(t2);
    if |n1| == |n2| && |n1| != 0 {
      MemcmpAntisymmetric(n1, n2);
    }
  }

  /** The comparison is a strict order: "less than" is transitive. */
  lemma TokenCompareTransitive(normalize: seq<Byte> -> seq<Byte>, t1: seq<Byte>, t2: seq<Byte>, t3: seq<Byte>)
    requires TokenCompare(normalize, t1, t2) < 0 && TokenCompare(normalize, t2, t3) < 0
    ensures TokenCompare(normalize, t1, t3) < 0
  {
    var n1, n2, n3 := normalize(t1), normalize(t2), normalize(t3);
    if |n1| == |n2| == |n3| {
      MemcmpTransitive(n1, n2, n3);
    }
  }
}
