/**
 * How a failed parse becomes an editor diagnostic: the `catch` clauses of
 * `ParseJob.run` and `ParseController.setParseError`
 * (src/org/rascalmpl/eclipse/editor/ParseController.java).
 */
module ErrorTranslation {
  import opened Wrappers
  import opened JavaLang

  /** The text being parsed: a Java `String`, so at most `Integer.MAX_VALUE` code units long. */
  type Source = s: JString | |s| <= 0x7fff_ffff

  /**
   * The arguments of one `IMessageHandler.handleSimpleMessage` call, in the
   * handler's own order: message, start and end offset, start and end
   * column, start and end line.
   */
  datatype Diagnostic = Diagnostic(message: JString,
                                   startOffset: int32, endOffset: int32,
                                   startColumn: int32, endColumn: int32,
                                   startLine: int32, endLine: int32)

  /** Line and column information of a position. */
  datatype Lines = Lines(beginLine: int32, beginColumn: int32, endLine: int32, endColumn: int32)

  /** Offset and length information of a position. */
  datatype Span = Span(offset: int32, length: int32)

  /**
   * An `ISourceLocation`. Offset/length and line/column information are each
   * optional; asking a location for information it lacks throws.
   */
  datatype Location = Location(span: Option<Span>, lines: Option<Lines>)

  /** What `parseModule` can throw, by the `catch` clause that receives it. */
  datatype Failure =
    | ParseError(text: JString, offset: int32, length: int32, at: Lines)   // `text` is `pe.toString()`
    | StaticError(message: JString, location: Location)
    | Throw(message: JString, location: Location)
    | Ambiguous(message: JString, location: Location)
    | FactTypeUse                                                         // logged only
    | Unclassified                                                        // not caught by `run`

  // ---------------------------------------------------------------------
  // setParseError
  // ---------------------------------------------------------------------

  /** The sentinel position reported when a failure carries no usable offset. */
  const Sentinel := (0, 0, 0, 0, 1, 1)

  /**
   * `setParseError`: the single handler call it makes. A non-negative
   * offset is reported with an inclusive end offset (the last character of
   * the span); a negative one falls back to the sentinel position.
   */
  function SetParseError(offset: int32, length: int32, beginLine: int32, beginColumn: int32,
                         endLine: int32, endColumn: int32, message: JString): (d: Diagnostic)
    ensures d.message == message
    ensures offset < 0 ==>
      (d.startOffset, d.endOffset, d.startColumn, d.endColumn, d.startLine, d.endLine) == Sentinel
    ensures offset >= 0 ==>
      d.startOffset == offset &&
      d.startColumn == beginColumn && d.endColumn == endColumn &&
      d.startLine == beginLine && d.endLine == endLine
    ensures offset >= 0 && length >= 0 && offset + length <= MaxInt + 1 ==>
      d.startOffset <= d.endOffset && (length == 0 || d.endOffset - d.startOffset + 1 == length)
    ensures offset >= 0 && length == 0 ==> d.endOffset == offset
  {
    if offset >= 0 then
      Diagnostic(message, offset, Wrap(offset + (if length == 0 then 0 else Wrap(length - 1))),
                 beginColumn, endColumn, beginLine, endLine)
    else
      Diagnostic(message, 0, 0, 0, 0, 1, 1)
  }

  // ---------------------------------------------------------------------
  // Syntax errors: offset clamp and lookahead window
  // ---------------------------------------------------------------------

  /** An error reported one past the end of a non-empty input is moved onto its last character. */
  function ClampOffset(offset: int32, inputLength: nat): (r: int32)
    requires inputLength <= MaxInt
    ensures offset > 0 && offset == inputLength ==> r == inputLength - 1
    ensures !(offset > 0 && offset == inputLength) ==> r == offset
    ensures 0 <= offset <= inputLength ==> 0 <= r <= inputLength && (r < inputLength || inputLength == 0)
  {
    if offset > 0 && offset == inputLength then offset - 1 else offset
  }

  /** The number of code units shown after a syntax error. */
  const LookaheadLength := 20

  /**
   * `input.substring(offset, Math.min(offset + 20, input.length()))`, or
   * `None` where `substring` throws (a negative offset, an offset past the
   * end, or `offset + 20` wrapping to a negative end).
   */
  function Lookahead(input: Source, offset: int32): (r: Option<JString>)
    ensures r.Some? ==> 0 <= offset <= |input|
    ensures r.Some? ==>
      |r.value| <= LookaheadLength && offset + |r.value| <= |input| &&
      r.value == input[offset .. offset + |r.value|]
    ensures 0 <= offset <= |input| && offset <= MaxInt - LookaheadLength ==>
      r == Some(input[offset .. Min(offset + LookaheadLength, |input|)])
  {
    var k := Min(Wrap(offset + LookaheadLength), |input|);
    if 0 <= offset <= k then Some(input[offset .. k]) else None
  }

  // ---------------------------------------------------------------------
  // Escaping the lookahead window
  // ---------------------------------------------------------------------

  /**
   * A Unicode space character other than the four ordinary white-space
   * characters; `isSpaceChar` stands for `Character.isSpaceChar`.
   */
  predicate IsOddSpace(isSpaceChar: int -> bool, c: int)
  {
    isSpaceChar(c) && c != ' ' as int && c != '\t' as int && c != '\r' as int && c != '\n' as int
  }

  /** Every Unicode space character is a BMP character that is not a surrogate. */
  ghost predicate SpaceCharsAreBmp(isSpaceChar: int -> bool)
  {
    forall c :: isSpaceChar(c) ==> 0 <= c < 0x1_0000 && !IsSurrogate(c)
  }

  const BackslashLowerU: JString := ['\\' as int, 'u' as int]
  const BackslashUpperU: JString := ['\\' as int, 'U' as int]
  function FollowedBy(): JString { Literal(" FOLLOWED BY: ") }
  function UnicodeNote(): JString { Literal(" NOTE: unrecognized characters occur at \\u followed by a hexadecimal number") }

  /** What the escape loop appends for the code point `c`. */
  function EscapePiece(isSpaceChar: int -> bool, c: int): JString
    requires IsCodePoint(c)
  {
    if IsOddSpace(isSpaceChar, c) then
      if CharCount(c) == 1 then BackslashLowerU + FormatHex(c, 4) else BackslashUpperU + FormatHex(c, 6)
    else
      ToChars(c)
  }

  /** The escaped text and whether an escape was emitted (`hasUni`). */
  datatype Escaped = Escaped(text: JString, hasUni: bool)

  /**
   * The escape loop over the window from position `i` on, advancing by whole
   * code points.
   */
  function EscapeFrom(isSpaceChar: int -> bool, w: JString, i: nat): Escaped
    requires i <= |w|
    decreases |w| - i
  {
    if i == |w| then Escaped([], false)
    else
      var c := CodePointAt(w, i);
      var rest := EscapeFrom(isSpaceChar, w, i + CharCount(c));
      Escaped(EscapePiece(isSpaceChar, c) + rest.text, IsOddSpace(isSpaceChar, c) || rest.hasUni)
  }

  /**
   * The escape loop as the source writes it: it reads `codePointAt(i)` but
   * advances `i` by one code unit, so the low surrogate of a pair is read a
   * second time on its own.
   */
  function EscapeAsWrittenFrom(isSpaceChar: int -> bool, w: JString, i: nat): Escaped
    requires i <= |w|
    decreases |w| - i
  {
    if i == |w| then Escaped([], false)
    else
      var c := CodePointAt(w, i);
      var rest := EscapeAsWrittenFrom(isSpaceChar, w, i + 1);
      Escaped(EscapePiece(isSpaceChar, c) + rest.text, IsOddSpace(isSpaceChar, c) || rest.hasUni)
  }

  /** One step of the escape loop: the piece for the code point at `i`, then the rest. */
  lemma EscapeFromStep(isSpaceChar: int -> bool, w: JString, i: nat)
    requires i < |w|
    ensures i + CharCount(CodePointAt(w, i)) <= |w|
    ensures EscapeFrom(isSpaceChar, w, i).text ==
      EscapePiece(isSpaceChar, CodePointAt(w, i)) + EscapeFrom(isSpaceChar, w, i + CharCount(CodePointAt(w, i))).text
    ensures EscapeFrom(isSpaceChar, w, i).hasUni ==
      (IsOddSpace(isSpaceChar, CodePointAt(w, i)) || EscapeFrom(isSpaceChar, w, i + CharCount(CodePointAt(w, i))).hasUni)
  {
  }

  /**
   * Appending the piece for the code point at `i` to `before` leaves the
   * same text still to be appended from the next code point on.
   */
  lemma EscapeLoopStep(isSpaceChar: int -> bool, w: JString, i: nat, before: JString, after: JString)
    requires i < |w|
    requires after == before + EscapePiece(isSpaceChar, CodePointAt(w, i))
    ensures i + CharCount(CodePointAt(w, i)) <= |w|
    ensures after + EscapeFrom(isSpaceChar, w, i + CharCount(CodePointAt(w, i))).text
         == before + EscapeFrom(isSpaceChar, w, i).text
  {
    var c := CodePointAt(w, i);
    EscapeFromStep(isSpaceChar, w, i);
    AppendAssoc(before, EscapePiece(isSpaceChar, c), EscapeFrom(isSpaceChar, w, i + CharCount(c)).text);
  }

  /** The message of a syntax-error diagnostic. */
  function SyntaxMessage(isSpaceChar: int -> bool, text: JString, window: JString): JString
  {
    var e := EscapeFrom(isSpaceChar, window, 0);
    text + FollowedBy() + e.text + (if e.hasUni then UnicodeNote() else [])
  }

  /**
   * The escape loop of the `ParseError` handler: appends the window to
   * `msg` code point by code point, escaping odd spaces, and reports in
   * `hasUni` whether it escaped any.
   */
  method AppendEscaped(isSpaceChar: int -> bool, prefix: JString, window: JString)
    returns (msg: JString, hasUni: bool)
    ensures msg == prefix + EscapeFrom(isSpaceChar, window, 0).text
    ensures hasUni == EscapeFrom(isSpaceChar, window, 0).hasUni
  {
    ghost var all := EscapeFrom(isSpaceChar, window, 0);
    msg := prefix;
    hasUni := false;
    var i := 0;
    while i < |window|
      invariant 0 <= i <= |window|
      invariant msg + EscapeFrom(isSpaceChar, window, i).text == prefix + all.text
      invariant (hasUni || EscapeFrom(isSpaceChar, window, i).hasUni) == all.hasUni
      decreases |window| - i
    {
      ghost var before := msg;
      var c := CodePointAt(window, i);
      if IsOddSpace(isSpaceChar, c) {
        if CharCount(c) == 1 {
          msg := msg + (BackslashLowerU + FormatHex(c, 4));
        } else {
          msg := msg + (BackslashUpperU + FormatHex(c, 6));
        }
        hasUni := true;
        assert msg == before + EscapePiece(isSpaceChar, c);
      } else {
        msg := msg + ToChars(c);
        assert msg == before + EscapePiece(isSpaceChar, c);
      }
      EscapeLoopStep(isSpaceChar, window, i, before, msg);
      i := i + CharCount(c);
    }
  }

  /**
   * The message of the `ParseError` handler: the error text, the marker,
   * the escaped window and, if anything was escaped, the note.
   */
  method BuildSyntaxMessage(isSpaceChar: int -> bool, text: JString, window: JString) returns (msg: JString)
    ensures msg == SyntaxMessage(isSpaceChar, text, window)
  {
    var hasUni;
    msg, hasUni := AppendEscaped(isSpaceChar, text + FollowedBy(), window);
    if hasUni {
      msg := msg + UnicodeNote();
    }
  }

  // ---------------------------------------------------------------------
  // What the escaped message says
  // ---------------------------------------------------------------------

  /** A window in which nothing was escaped is copied verbatim. */
  lemma {:induction false} EscapeWithoutUniIsVerbatim(isSpaceChar: int -> bool, w: JString, i: nat)
    requires i <= |w|
    requires !EscapeFrom(isSpaceChar, w, i).hasUni
    ensures EscapeFrom(isSpaceChar, w, i).text == w[i..]
    decreases |w| - i
  {
    if i < |w| {
      var c := CodePointAt(w, i);
      EscapeFromStep(isSpaceChar, w, i);
      EscapeWithoutUniIsVerbatim(isSpaceChar, w, i + CharCount(c));
      ToCharsOfCodePointAt(w, i);
      assert w[i..] == w[i .. i + CharCount(c)] + w[i + CharCount(c)..];
    }
  }

  /**
   * The loop as written copies a supplementary character (here U+1F600,
   * the code units D83D DE00) as three code units: the pair, then its low
   * surrogate again, although nothing was escaped.
   */
  lemma SurrogatePairCopiedTwice(isSpaceChar: int -> bool)
    requires SpaceCharsAreBmp(isSpaceChar)
    ensures EscapeAsWrittenFrom(isSpaceChar, [0xD83D, 0xDE00], 0) == Escaped([0xD83D, 0xDE00, 0xDE00], false)
    ensures EscapeFrom(isSpaceChar, [0xD83D, 0xDE00], 0) == Escaped([0xD83D, 0xDE00], false)
  {
    var w: JString := [0xD83D, 0xDE00];
    assert CodePointAt(w, 0) == 0x1F600;
    assert CodePointAt(w, 1) == 0xDE00;
    assert ToChars(0x1F600) == [0xD83D, 0xDE00];
    assert !IsOddSpace(isSpaceChar, 0x1F600) && !IsOddSpace(isSpaceChar, 0xDE00);
    assert EscapeAsWrittenFrom(isSpaceChar, w, 2) == Escaped([], false);
    assert EscapeAsWrittenFrom(isSpaceChar, w, 1) == Escaped([0xDE00], false);
    assert EscapeFrom(isSpaceChar, w, 2) == Escaped([], false);
  }
  /**
   * On a window without surrogate pairs the loop as written and the
   * corrected loop agree: stepping by one code unit and by one code point
   * are the same there.
   */
  lemma {:induction false} AsWrittenAgreesWithoutPairs(isSpaceChar: int -> bool, w: JString, i: nat)
    requires i <= |w|
    requires forall j :: i <= j < |w| ==> !StartsPair(w, j)
    ensures EscapeAsWrittenFrom(isSpaceChar, w, i) == EscapeFrom(isSpaceChar, w, i)
    decreases |w| - i
  {
    if i < |w| {
      assert !StartsPair(w, i);
      AsWrittenAgreesWithoutPairs(isSpaceChar, w, i + 1);
    }
  }


  /** What the window's code unit `u` turns into when Unicode spaces are all BMP characters. */
  function UnitPiece(isSpaceChar: int -> bool, u: CodeUnit): JString
  {
    if IsOddSpace(isSpaceChar, u) then BackslashLowerU + FormatHex(u, 4) else [u]
  }

  /** The window from `i` on, each code unit replaced by its piece. */
  function UnitPiecesFrom(isSpaceChar: int -> bool, w: JString, i: nat): JString
    requires i <= |w|
    decreases |w| - i
  {
    if i == |w| then [] else UnitPiece(isSpaceChar, w[i]) + UnitPiecesFrom(isSpaceChar, w, i + 1)
  }

  /** Some code unit of the window from `i` on is an odd space. */
  predicate HasOddSpaceFrom(isSpaceChar: int -> bool, w: JString, i: nat)
  {
    exists j :: i <= j < |w| && IsOddSpace(isSpaceChar, w[j])
  }

  /**
   * An odd space becomes exactly six code units: a backslash, `u` and four
   * lower-case hexadecimal digits that spell the space's code.
   */
  lemma OddSpaceEscape(isSpaceChar: int -> bool, u: CodeUnit)
    requires IsOddSpace(isSpaceChar, u)
    ensures |UnitPiece(isSpaceChar, u)| == 6
    ensures UnitPiece(isSpaceChar, u)[..2] == BackslashLowerU
    ensures AllLowerHexDigits(UnitPiece(isSpaceChar, u)[2..])
    ensures HexValue(UnitPiece(isSpaceChar, u)[2..]) == u
  {
    assert Pow16(4) == 0x1_0000 by {
      assert Pow16(1) == 16 && Pow16(2) == 256 && Pow16(3) == 4096;
    }
    FormatHexExact(u, 4);
    assert UnitPiece(isSpaceChar, u)[2..] == FormatHex(u, 4);
  }

  /**
   * When every Unicode space is a BMP character, the escape loop works code
   * unit by code unit: odd spaces are escaped and every other unit, surrogate
   * pairs included, is copied.
   */
  lemma {:induction false} EscapeIsUnitwise(isSpaceChar: int -> bool, w: JString, i: nat)
    requires SpaceCharsAreBmp(isSpaceChar)
    requires i <= |w|
    ensures EscapeFrom(isSpaceChar, w, i).text == UnitPiecesFrom(isSpaceChar, w, i)
    decreases |w| - i
  {
    if i == |w| {
      assert EscapeFrom(isSpaceChar, w, i).text == [] == UnitPiecesFrom(isSpaceChar, w, i);
    } else if StartsPair(w, i) {
      EscapeIsUnitwise(isSpaceChar, w, i + 2);
      PairPiece(isSpaceChar, w, i);
    } else {
      EscapeIsUnitwise(isSpaceChar, w, i + 1);
      SinglePiece(isSpaceChar, w, i);
    }
  }

  /** A surrogate pair is copied whole, as its two units would be one by one. */
  lemma PairPiece(isSpaceChar: int -> bool, w: JString, i: nat)
    requires SpaceCharsAreBmp(isSpaceChar)
    requires StartsPair(w, i)
    requires EscapeFrom(isSpaceChar, w, i + 2).text == UnitPiecesFrom(isSpaceChar, w, i + 2)
    ensures EscapeFrom(isSpaceChar, w, i).text == UnitPiecesFrom(isSpaceChar, w, i)
  {
    var rest := UnitPiecesFrom(isSpaceChar, w, i + 2);
    PairIsVerbatim(isSpaceChar, w, i);
    EscapeFromStep(isSpaceChar, w, i);
    PairUnits(isSpaceChar, w, i);
    AppendAssoc([w[i]], [w[i + 1]], rest);
  }

  /** A surrogate pair is never an odd space, so the loop copies it unchanged. */
  lemma PairIsVerbatim(isSpaceChar: int -> bool, w: JString, i: nat)
    requires SpaceCharsAreBmp(isSpaceChar)
    requires StartsPair(w, i)
    ensures CharCount(CodePointAt(w, i)) == 2
    ensures EscapePiece(isSpaceChar, CodePointAt(w, i)) == [w[i]] + [w[i + 1]]
  {
    ToCharsOfCodePointAt(w, i);
    assert !IsOddSpace(isSpaceChar, CodePointAt(w, i));
  }

  /** Neither half of a surrogate pair is an odd space. */
  lemma PairUnits(isSpaceChar: int -> bool, w: JString, i: nat)
    requires SpaceCharsAreBmp(isSpaceChar)
    requires StartsPair(w, i)
    ensures UnitPiecesFrom(isSpaceChar, w, i) == [w[i]] + ([w[i + 1]] + UnitPiecesFrom(isSpaceChar, w, i + 2))
  {
    assert !IsOddSpace(isSpaceChar, w[i]) && !IsOddSpace(isSpaceChar, w[i + 1]);
  }

  lemma SinglePiece(isSpaceChar: int -> bool, w: JString, i: nat)
    requires i < |w| && !StartsPair(w, i)
    requires EscapeFrom(isSpaceChar, w, i + 1).text == UnitPiecesFrom(isSpaceChar, w, i + 1)
    ensures EscapeFrom(isSpaceChar, w, i).text == UnitPiecesFrom(isSpaceChar, w, i)
  {
    EscapeFromStep(isSpaceChar, w, i);
    assert EscapePiece(isSpaceChar, CodePointAt(w, i)) == UnitPiece(isSpaceChar, w[i]);
  }

  /**
   * When every Unicode space is a BMP character, the escape loop escapes
   * something exactly when the window holds an odd space.
   */
  lemma {:induction false} EscapesIffOddSpace(isSpaceChar: int -> bool, w: JString, i: nat)
    requires SpaceCharsAreBmp(isSpaceChar)
    requires i <= |w|
    ensures EscapeFrom(isSpaceChar, w, i).hasUni <==> HasOddSpaceFrom(isSpaceChar, w, i)
    decreases |w| - i
  {
    if i < |w| {
      if StartsPair(w, i) {
        EscapesIffOddSpace(isSpaceChar, w, i + 2);
        PairHasNoOddSpace(isSpaceChar, w, i);
      } else {
        EscapesIffOddSpace(isSpaceChar, w, i + 1);
        SingleOddSpace(isSpaceChar, w, i);
      }
    }
  }

  /** A surrogate pair neither is nor holds an odd space. */
  lemma PairHasNoOddSpace(isSpaceChar: int -> bool, w: JString, i: nat)
    requires SpaceCharsAreBmp(isSpaceChar)
    requires StartsPair(w, i)
    requires EscapeFrom(isSpaceChar, w, i + 2).hasUni <==> HasOddSpaceFrom(isSpaceChar, w, i + 2)
    ensures EscapeFrom(isSpaceChar, w, i).hasUni <==> HasOddSpaceFrom(isSpaceChar, w, i)
  {
    EscapeFromStep(isSpaceChar, w, i);
    assert !IsOddSpace(isSpaceChar, CodePointAt(w, i));
    assert !IsOddSpace(isSpaceChar, w[i]) && !IsOddSpace(isSpaceChar, w[i + 1]);
    if HasOddSpaceFrom(isSpaceChar, w, i) {
      var j :| i <= j < |w| && IsOddSpace(isSpaceChar, w[j]);
      assert HasOddSpaceFrom(isSpaceChar, w, i + 2);
    }
  }

  /** A code unit outside a pair is escaped exactly when it is an odd space. */
  lemma SingleOddSpace(isSpaceChar: int -> bool, w: JString, i: nat)
    requires i < |w| && !StartsPair(w, i)
    requires EscapeFrom(isSpaceChar, w, i + 1).hasUni <==> HasOddSpaceFrom(isSpaceChar, w, i + 1)
    ensures EscapeFrom(isSpaceChar, w, i).hasUni <==> HasOddSpaceFrom(isSpaceChar, w, i)
  {
    EscapeFromStep(isSpaceChar, w, i);
    if HasOddSpaceFrom(isSpaceChar, w, i) && !IsOddSpace(isSpaceChar, w[i]) {
      var j :| i <= j < |w| && IsOddSpace(isSpaceChar, w[j]);
      assert HasOddSpaceFrom(isSpaceChar, w, i + 1);
    }
  }

  /**
   * The syntax-error message is the error text, `" FOLLOWED BY: "`, the
   * window with each odd space escaped, and the note exactly when the window
   * holds an odd space.
   */
  lemma SyntaxMessageShape(isSpaceChar: int -> bool, text: JString, window: JString)
    requires SpaceCharsAreBmp(isSpaceChar)
    ensures SyntaxMessage(isSpaceChar, text, window)
         == text + FollowedBy() + UnitPiecesFrom(isSpaceChar, window, 0)
            + (if HasOddSpaceFrom(isSpaceChar, window, 0) then UnicodeNote() else [])
  {
    EscapeIsUnitwise(isSpaceChar, window, 0);
    EscapesIffOddSpace(isSpaceChar, window, 0);
  }

  /**
   * A window without odd spaces (for instance one whose only white space is
   * blanks, tabs and line breaks) is shown verbatim, with no note.
   */
  lemma PlainWindowMessage(isSpaceChar: int -> bool, text: JString, window: JString)
    requires SpaceCharsAreBmp(isSpaceChar)
    requires forall j :: 0 <= j < |window| ==> !IsOddSpace(isSpaceChar, window[j])
    ensures SyntaxMessage(isSpaceChar, text, window) == text + FollowedBy() + window
  {
    EscapesIffOddSpace(isSpaceChar, window, 0);
    EscapeWithoutUniIsVerbatim(isSpaceChar, window, 0);
  }

  // ---------------------------------------------------------------------
  // The translation of every failure kind
  // ---------------------------------------------------------------------

  /** A diagnostic read off a location; `None` when the location lacks the information asked for. */
  function FromLocation(message: JString, loc: Location): (r: Option<Diagnostic>)
    ensures r.Some? <==> loc.span.Some? && loc.lines.Some?
    ensures r.Some? ==> r.value.message == message
    ensures r.Some? && loc.span.value.offset >= 0 ==>
      var sp, ln := loc.span.value, loc.lines.value;
      r.value.startOffset == sp.offset &&
      r.value.startLine == ln.beginLine && r.value.endLine == ln.endLine &&
      r.value.startColumn == ln.beginColumn && r.value.endColumn == ln.endColumn &&
      (sp.length == 0 ==> r.value.endOffset == sp.offset) &&
      (0 <= sp.length && sp.offset + sp.length <= MaxInt + 1 ==> sp.offset <= r.value.endOffset) &&
      (1 <= sp.length && sp.offset + sp.length <= MaxInt + 1 ==> r.value.endOffset == sp.offset + sp.length - 1)
    ensures r.Some? && loc.span.value.offset < 0 ==>
      var d := r.value;
      (d.startOffset, d.endOffset, d.startColumn, d.endColumn, d.startLine, d.endLine) == Sentinel
  {
    match (loc.span, loc.lines)
    case (Some(sp), Some(ln)) =>
      Some(SetParseError(sp.offset, sp.length, ln.beginLine, ln.beginColumn, ln.endLine, ln.endColumn, message))
    case _ => None
  }

  /**
   * The `ParseError` case of `run`: the offset is clamped, the lookahead
   * window taken and escaped, and the lines shifted to 1-based.
   */
  function SyntaxDiagnostic(isSpaceChar: int -> bool, input: Source, text: JString,
                            offset0: int32, length: int32, at: Lines): Option<Diagnostic>
  {
    var offset := ClampOffset(offset0, |input|);
    match Lookahead(input, offset)
    case None => None
    case Some(window) =>
      Some(SetParseError(offset, length, Wrap(at.beginLine + 1), at.beginColumn,
                         Wrap(at.endLine + 1), at.endColumn, SyntaxMessage(isSpaceChar, text, window)))
  }

  /**
   * The diagnostic `run` hands to the message handler for a failed parse of
   * `input`, if any.
   */
  function Translate(isSpaceChar: int -> bool, input: Source, failure: Failure): (r: Option<Diagnostic>)
    ensures failure.FactTypeUse? || failure.Unclassified? ==> r.None?
    ensures failure.StaticError? && failure.location.span.None? ==> r.None?
    ensures failure.ParseError? ==>
      (r.Some? <==> Lookahead(input, ClampOffset(failure.offset, |input|)).Some?)
    ensures failure.ParseError? && (failure.offset < 0 || failure.offset > |input|) ==> r.None?
    ensures (failure.StaticError? || failure.Throw? || failure.Ambiguous?) ==>
      r == FromLocation(failure.message, failure.location)
  {
    match failure
    case ParseError(text, offset, length, at) => SyntaxDiagnostic(isSpaceChar, input, text, offset, length, at)
    case StaticError(message, loc) =>
      if loc.span.Some? then FromLocation(message, loc) else None
    case Throw(message, loc) => FromLocation(message, loc)
    case Ambiguous(message, loc) => FromLocation(message, loc)
    case FactTypeUse => None
    case Unclassified => None
  }

  /**
   * A syntax error inside the input (or one past its end) is reported at the
   * clamped offset, never past the last character of a non-empty input, with
   * the escaped lookahead as message, its lines shifted from 0-based to
   * 1-based and its columns unchanged.
   */
  lemma SyntaxErrorDiagnostic(isSpaceChar: int -> bool, input: Source, text: JString,
                              offset: int32, length: int32, at: Lines)
    requires 0 <= offset <= |input| && offset <= MaxInt - LookaheadLength
    ensures var r := Translate(isSpaceChar, input, ParseError(text, offset, length, at));
            var o := ClampOffset(offset, |input|);
            r.Some? &&
            r.value.startOffset == o && 0 <= o && (o < |input| || |input| == 0) &&
            r.value.message == SyntaxMessage(isSpaceChar, text, input[o .. Min(o + LookaheadLength, |input|)]) &&
            r.value.startColumn == at.beginColumn && r.value.endColumn == at.endColumn &&
            (at.beginLine < MaxInt ==> r.value.startLine == at.beginLine + 1) &&
            (at.endLine < MaxInt ==> r.value.endLine == at.endLine + 1)
  {
  }

  /**
   * Static errors, runtime throws and ambiguities with a complete location
   * are reported with the location's own lines and columns, and at the
   * sentinel position when its offset is negative.
   */
  lemma LocatedDiagnostic(isSpaceChar: int -> bool, input: Source, failure: Failure)
    requires failure.StaticError? || failure.Throw? || failure.Ambiguous?
    requires failure.location.span.Some? && failure.location.lines.Some?
    ensures var r := Translate(isSpaceChar, input, failure);
            var sp, ln := failure.location.span.value, failure.location.lines.value;
            r.Some? && r.value.message == failure.message &&
            (sp.offset >= 0 ==>
               r.value.startOffset == sp.offset &&
               r.value.startLine == ln.beginLine && r.value.endLine == ln.endLine &&
               r.value.startColumn == ln.beginColumn && r.value.endColumn == ln.endColumn) &&
            (sp.offset < 0 ==>
               (r.value.startOffset, r.value.endOffset, r.value.startColumn,
                r.value.endColumn, r.value.startLine, r.value.endLine) == Sentinel)
  {
  }
}
