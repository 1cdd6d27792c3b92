/** The character classification and case-fold tables that `genctype.py`
    generates: for every byte a set of class flags, and a fold byte. The
    printing of the C source is not part of this model. */
module Ctype {

  import opened Bytes

  /** The `SVN_CTYPE_*` flags. */
  datatype CtypeFlag = AsciiFlag | Cntrl | Space | Punct | Digit | Upper | Lower | XAlpha
                     | Utf8Lead | Utf8Cont

  /** The whitespace bytes: tab, newline, vertical tab, form feed,
      carriage return and space. */
  const Whitespace: set<Byte> := {9, 10, 11, 12, 13, 32}

  /** The bytes the generator excludes from the lead bytes. */
  const Utf8Invalid: set<Byte> := {0xE0, 0xF0, 0xF8, 0xFC, 0xFE, 0xFF}

  /** The flags of one ASCII byte, in the order the generator lists them. */
  function AsciiBits(c: Byte): seq<CtypeFlag>
    requires c < 128
  {
    [AsciiFlag]
    + (if c < 32 || c == 127 then [Cntrl] else [])
    + (if c in Whitespace then [Space] else [])
    + (if 33 <= c < 48 || 58 <= c < 65 || 91 <= c < 97 || 123 <= c < 127 then [Punct]
       else if 48 <= c < 58 then [Digit]
       else if 65 <= c < 91 then [Upper] + (if c <= 70 then [XAlpha] else [])
       else if 97 <= c < 123 then [Lower] + (if c <= 102 then [XAlpha] else [])
       else [])
  }

  /** The flags of one byte above 127: a lead byte test, else the
      continuation test `(c & 0xC0) == 0x80`. */
  function HighBits(c: Byte): seq<CtypeFlag>
    requires c >= 128
  {
    if 0xC0 < c < 0xFE && c !in Utf8Invalid then [Utf8Lead]
    else if (c as bv8) & 0xC0 == 0x80 then [Utf8Cont]
    else []
  }

  /** The entry of `svn_ctype_table` for byte `c`: the generator's list. */
  function Bits(c: Byte): seq<CtypeFlag> {
    if c < 128 then AsciiBits(c) else HighBits(c)
  }

  function Flags(c: Byte): set<CtypeFlag> {
    set f | f in Bits(c)
  }

  /** `svn_ctype_table`: 256 entries, one per byte. The ASCII, control,
      space, digit, letter and hex-letter flags mark exactly the usual
      ranges, punctuation is every other printable ASCII byte but space,
      and above 127 the continuation flag marks exactly 0x80..0xBF and the
      lead flag the generator's lead-byte test. */
  function CtypeTable(): (t: seq<set<CtypeFlag>>)
    ensures |t| == 256
    ensures forall c: Byte :: AsciiFlag in t[c] <==> c < 128
    ensures forall c: Byte :: Cntrl in t[c] <==> c < 32 || c == 127
    ensures forall c: Byte :: Space in t[c] <==> c in Whitespace
    ensures forall c: Byte :: Digit in t[c] <==> 48 <= c <= 57
    ensures forall c: Byte :: Upper in t[c] <==> 65 <= c <= 90
    ensures forall c: Byte :: Lower in t[c] <==> 97 <= c <= 122
    ensures forall c: Byte :: XAlpha in t[c] <==> 65 <= c <= 70 || 97 <= c <= 102
    ensures forall c: Byte :: Punct in t[c] <==>
              33 <= c <= 126 && !(48 <= c <= 57) && !(65 <= c <= 90) && !(97 <= c <= 122)
    ensures forall c: Byte :: Utf8Cont in t[c] <==> 0x80 <= c < 0xC0
    ensures forall c: Byte :: Utf8Lead in t[c] <==> 0xC0 < c < 0xFE && c !in Utf8Invalid
  {
    var t := seq(256, i requires 0 <= i < 256 => Flags(i));
    assert forall c: Byte :: t[c] == Flags(c);
    assert forall c: Byte :: Classified(Flags(c), c) by {
      forall c: Byte
        ensures Classified(Flags(c), c)
      {
        FlagsClassified(c);
      }
    }
    t
  }

  /** The ranges each flag marks, for the entry `f` of byte `c`. */
  ghost predicate Classified(f: set<CtypeFlag>, c: Byte) {
    && (AsciiFlag in f <==> c < 128)
    && (Cntrl in f <==> c < 32 || c == 127)
    && (Space in f <==> c in Whitespace)
    && (Digit in f <==> 48 <= c <= 57)
    && (Upper in f <==> 65 <= c <= 90)
    && (Lower in f <==> 97 <= c <= 122)
    && (XAlpha in f <==> 65 <= c <= 70 || 97 <= c <= 102)
    && (Punct in f <==> 33 <= c <= 126 && !(48 <= c <= 57) && !(65 <= c <= 90) && !(97 <= c <= 122))
    && (Utf8Cont in f <==> 0x80 <= c < 0xC0)
    && (Utf8Lead in f <==> 0xC0 < c < 0xFE && c !in Utf8Invalid)
  }

  lemma FlagsClassified(c: Byte)
    ensures Classified(Flags(c), c)
  {
    AsciiAndControl(c);
    WhitespaceBytes(c);
    AsciiClasses(c);
    HexLetters(c);
    PunctBytes(c);
    hide Flags;
    if c >= 128 {
      HighBytes(c);
    } else {
      LowBytesNotUtf8(c);
    }
  }

  /** Punctuation is every printable ASCII byte but space that is
      neither a digit nor a letter. */
  lemma PunctBytes(c: Byte)
    ensures Punct in Flags(c) <==> 33 <= c <= 126 && !(48 <= c <= 57) && !(65 <= c <= 90) && !(97 <= c <= 122)
  {
  }

  lemma LowBytesNotUtf8(c: Byte)
    requires c < 128
    ensures Utf8Cont !in Flags(c) && Utf8Lead !in Flags(c)
  {
  }

  /** The entry of `casefold_table` for byte `c`. */
  function Fold(c: Byte): Byte {
    if 65 <= c < 91 then c
    else if 97 <= c < 123 then c - 32
    else 0
  }

  /** `casefold_table`: 256 entries, one per byte. Capitals stay,
      small letters become their capitals, every other byte becomes NUL;
      so the entry is non-NUL exactly on letters, and folding twice is
      folding once. */
  function CasefoldTable(): (t: seq<Byte>)
    ensures |t| == 256
    ensures forall c: Byte :: t[c] != 0 <==> 65 <= c <= 90 || 97 <= c <= 122
    ensures forall c: Byte :: 65 <= c <= 90 ==> t[c] == c
    ensures forall c: Byte :: 97 <= c <= 122 ==> t[c] == c - 32
    ensures forall c: Byte :: t[c] != 0 ==> t[t[c]] == t[c]
  {
    var t := seq(256, i requires 0 <= i < 256 => Fold(i));
    assert forall c: Byte :: t[c] == Fold(c);
    t
  }

  // ---------------------------------------------------------------------
  // What the tables say

  lemma AsciiAndControl(c: Byte)
    ensures AsciiFlag in Flags(c) <==> c < 128
    ensures Cntrl in Flags(c) <==> c < 32 || c == 127
  {
  }

  lemma WhitespaceBytes(c: Byte)
    ensures Space in Flags(c) <==> c == 9 || c == 10 || c == 11 || c == 12 || c == 13 || c == 32
  {
  }

  /** Among the ASCII classes at most one holds, and digits and letters
      are exactly the usual ranges. */
  lemma AsciiClasses(c: Byte)
    ensures Digit in Flags(c) <==> 48 <= c <= 57
    ensures Upper in Flags(c) <==> 65 <= c <= 90
    ensures Lower in Flags(c) <==> 97 <= c <= 122
    ensures Punct in Flags(c) ==> Digit !in Flags(c) && Upper !in Flags(c) && Lower !in Flags(c)
    ensures Digit in Flags(c) ==> Upper !in Flags(c) && Lower !in Flags(c)
    ensures Upper in Flags(c) ==> Lower !in Flags(c)
  {
  }

  /** The hexadecimal letters; decimal digits are not among them. */
  lemma HexLetters(c: Byte)
    ensures XAlpha in Flags(c) <==> 65 <= c <= 70 || 97 <= c <= 102
    ensures Digit in Flags(c) ==> XAlpha !in Flags(c)
  {
  }

  /** Above 127 the lead-byte flag follows the generator's own test,
      and the continuation flag is exactly 0x80..0xBF; the two never meet
      and 0xC0 gets no flag at all. */
  lemma HighBytes(c: Byte)
    requires c >= 128
    ensures Utf8Lead in Flags(c) <==> 0xC0 < c < 0xFE && c !in Utf8Invalid
    ensures Utf8Cont in Flags(c) <==> 0x80 <= c < 0xC0
    ensures !(Utf8Lead in Flags(c) && Utf8Cont in Flags(c))
    ensures c == 0xC0 ==> Flags(c) == {}
  {
    ContinuationMask(c);
  }

  /** `(c & 0xC0) == 0x80` holds exactly for 0x80..0xBF. */
  lemma ContinuationMask(c: Byte)
    ensures (c as bv8) & 0xC0 == 0x80 <==> 0x80 <= c < 0xC0
  {
    var b := c as bv8;
    assert b & 0xC0 == 0x80 <==> 0x80 <= b < 0xC0;
  }

  /** Bytes above 127 carry none of the ASCII flags. */
  lemma NoAsciiFlagsAbove127(c: Byte)
    requires c >= 128
    ensures Flags(c) * {AsciiFlag, Cntrl, Space, Punct, Digit, Upper, Lower, XAlpha} == {}
  {
  }

  /** Against section 4 of RFC 3629, whose lead bytes are 0xC2..0xF4:
      the table flags every one of them except 0xE0 and 0xF0, and it also
      flags 0xC1 and 0xF5..0xFD (but for 0xF8 and 0xFC), which never occur
      in UTF-8. */
  lemma LeadBytesAgainstRfc3629(c: Byte)
    ensures 0xC2 <= c <= 0xF4 && c != 0xE0 && c != 0xF0 ==> Utf8Lead in Flags(c)
    ensures c == 0xE0 || c == 0xF0 ==> Utf8Lead !in Flags(c)
    ensures c == 0xC1 || (0xF5 <= c <= 0xFD && c != 0xF8 && c != 0xFC) ==> Utf8Lead in Flags(c)
    ensures Utf8Lead in Flags(c) ==> 0xC1 <= c <= 0xFD
  {
  }

  /** The fold keeps capitals, raises small letters and sends every
      other byte to NUL; it is idempotent on letters and is non-NUL
      exactly on the bytes flagged as letters. */
  lemma CaseFold(c: Byte)
    ensures Upper in Flags(c) ==> Fold(c) == c
    ensures Lower in Flags(c) ==> Fold(c) == c - 32 && Upper in Flags(Fold(c))
    ensures Upper !in Flags(c) && Lower !in Flags(c) ==> Fold(c) == 0
    ensures Fold(c) != 0 <==> Upper in Flags(c) || Lower in Flags(c)
    ensures Fold(c) != 0 ==> Fold(Fold(c)) == Fold(c)
  {
    if Fold(c) != 0 {
      assert 65 <= Fold(c) < 91;
    }
  }
}
