/** Quoted text in every spelling, and which error a rejected input gets. */
module KeyValuesExact {
  import opened Common
  import opened KeyValues
  import Utf8

  // ---- Spellings of quoted text ----

  /** A byte read as the character of the same number, encoded. */
  function Latin(b: byte): Bytes {
    Utf8.EncodeScalar(b)
  }

  lemma {:induction false} AsCharIsLatin(b: byte)
    ensures AsChar(b) == Latin(b)
  {
  }

  /**
   * How one piece of text can be spelled between quotes: a byte stands for itself unless it is a quote or a
   * backslash; those two, the line feed and the tab have an escape; and a backslash before anything else stays.
   */
  predicate Spells(raw: Bytes, text: Bytes) {
    || (|raw| == 1 && raw[0] != 0x22 && raw[0] != 0x5C && text == Latin(raw[0]))
    || (raw == [0x5C, 0x22] && text == [0x22])
    || (raw == [0x5C, 0x5C] && text == [0x5C])
    || (raw == [0x5C, 0x6E] && text == [0x0A])
    || (raw == [0x5C, 0x74] && text == [0x09])
    || (|raw| == 2 && raw[0] == 0x5C && raw[1] !in {0x22, 0x5C, 0x6E, 0x74} && text == [0x5C] + Latin(raw[1]))
  }

  datatype Piece = Piece(raw: Bytes, text: Bytes)

  function Raw(pieces: seq<Piece>): Bytes {
    if pieces == [] then [] else pieces[0].raw + Raw(pieces[1..])
  }

  function TextOf(pieces: seq<Piece>): Bytes {
    if pieces == [] then [] else pieces[0].text + TextOf(pieces[1..])
  }

  ghost predicate Spelled(pieces: seq<Piece>) {
    forall i :: 0 <= i < |pieces| ==> Spells(pieces[i].raw, pieces[i].text)
  }

  /** Reading goes over one spelled piece and appends its text. */
  lemma {:induction false} PieceReads(s: Bytes, o: nat, piece: Piece, value: Bytes)
    requires Spells(piece.raw, piece.text) && At(s, o, piece.raw)
    ensures Quoted(s, o, value) == Quoted(s, o + |piece.raw|, value + piece.text)
  {
    hide Latin;
    AtByte(s, o, piece.raw, 0);
    AtByte(s, o, piece.raw, |piece.raw| - 1);
    AsCharIsLatin(piece.raw[0]);
    AsCharIsLatin(piece.raw[|piece.raw| - 1]);
  }

  lemma {:induction false} PiecesRead(s: Bytes, o: nat, pieces: seq<Piece>, value: Bytes)
    requires Spelled(pieces) && At(s, o, Raw(pieces))
    ensures Quoted(s, o, value) == Quoted(s, o + |Raw(pieces)|, value + TextOf(pieces))
    decreases pieces
  {
    hide Quoted, Spells;
    if pieces == [] {
      assert value + [] == value;
    } else {
      AtSplit(s, o, pieces[0].raw, Raw(pieces[1..]));
      PieceReads(s, o, pieces[0], value);
      PiecesRead(s, o + |pieces[0].raw|, pieces[1..], value + pieces[0].text);
      assert value + TextOf(pieces) == (value + pieces[0].text) + TextOf(pieces[1..]);
    }
  }

  datatype Ending = Quote | Nothing | LoneBackslash

  /** What follows the pieces: a closing quote, the end of the input, or a backslash right before it. */
  ghost predicate Ends(s: Bytes, at: nat, ending: Ending) {
    match ending
    case Quote => at < |s| && s[at] == 0x22
    case Nothing => at == |s|
    case LoneBackslash => at + 1 == |s| && s[at] == 0x5C
  }

  /** Everything from just after an opening quote is spelled pieces up to one of three endings. */
  lemma {:induction false} Decomposes(s: Bytes, o: nat) returns (pieces: seq<Piece>, ending: Ending)
    requires o <= |s|
    ensures Spelled(pieces) && At(s, o, Raw(pieces)) && Ends(s, o + |Raw(pieces)|, ending)
    decreases |s| - o
  {
    if o == |s| || s[o] == 0x22 || (s[o] == 0x5C && o + 1 == |s|) {
      pieces := [];
      ending := if o == |s| then Nothing else if s[o] == 0x22 then Quote else LoneBackslash;
    } else {
      var n := if s[o] == 0x5C then 2 else 1;
      var raw := s[o..o + n];
      var text := SpelledText(raw);
      var later, e := Decomposes(s, o + n);
      pieces, ending := [Piece(raw, text)] + later, e;
      assert pieces[1..] == later;
      AtSplit(s, o, raw, Raw(later));
    }
  }

  lemma {:induction false} SpelledText(raw: Bytes) returns (text: Bytes)
    requires (|raw| == 1 && raw[0] != 0x22 && raw[0] != 0x5C) || (|raw| == 2 && raw[0] == 0x5C)
    ensures Spells(raw, text)
  {
    hide Latin;
    if |raw| == 1 {
      text := Latin(raw[0]);
    } else if raw[1] == 0x22 || raw[1] == 0x5C {
      text := [raw[1]];
      assert raw == [0x5C, raw[1]];
    } else if raw[1] == 0x6E {
      text := [0x0A];
      assert raw == [0x5C, 0x6E];
    } else if raw[1] == 0x74 {
      text := [0x09];
      assert raw == [0x5C, 0x74];
    } else {
      text := [0x5C] + Latin(raw[1]);
    }
  }

  /**
   * Reading quoted text is exact for every spelling: closed by a quote it is the text spelled, and without
   * one it is unterminated, or an escape cut off by the end.
   */
  lemma {:induction false} QuotedExact(s: Bytes, o: nat, pieces: seq<Piece>, ending: Ending, value: Bytes)
    requires Spelled(pieces) && At(s, o, Raw(pieces)) && Ends(s, o + |Raw(pieces)|, ending)
    ensures Quoted(s, o, value) ==
            match ending
            case Quote => Closed(value + TextOf(pieces), o + |Raw(pieces)| + 1)
            case Nothing => Unterminated
            case LoneBackslash => EscapeAtEnd(|s|)
  {
    PiecesRead(s, o, pieces, value);
  }

  /** The token a quote begins, or the error at its place. */
  lemma {:induction false} QuoteExact(s: Bytes, o: nat, pieces: seq<Piece>, ending: Ending)
    requires o < |s| && s[o] == 0x22
    requires Spelled(pieces) && At(s, o + 1, Raw(pieces)) && Ends(s, o + 1 + |Raw(pieces)|, ending)
    ensures match ending
            case Quote =>
              var next := o + 1 + |Raw(pieces)| + 1;
              next <= |s| && Lex(s, o) == Before([Spanned(Text(TextOf(pieces)), o)], Lex(s, next))
            case Nothing => Lex(s, o) == Fails(UnterminatedString(o))
            case LoneBackslash => Lex(s, o) == Fails(InvalidEscape(|s|))
  {
    hide Quoted;
    QuotedExact(s, o + 1, pieces, ending, []);
    assert [] + TextOf(pieces) == TextOf(pieces);
  }

  /** A line feed spelled as an escape. */
  lemma {:induction false} EscapedLineFeed()
    ensures Quoted([0x22, 0x61, 0x5C, 0x6E, 0x62, 0x22], 1, []) == Closed([0x61, 0x0A, 0x62], 6)
  {
    var s: Bytes := [0x22, 0x61, 0x5C, 0x6E, 0x62, 0x22];
    var pieces := [Piece([0x61], [0x61]), Piece([0x5C, 0x6E], [0x0A]), Piece([0x62], [0x62])];
    assert pieces[1..] == [pieces[1], pieces[2]] && pieces[1..][1..] == [pieces[2]] && [pieces[2]][1..] == [];
    assert Raw(pieces) == [0x61, 0x5C, 0x6E, 0x62] && TextOf(pieces) == [0x61, 0x0A, 0x62];
    QuotedExact(s, 1, pieces, Quote, []);
  }

  /** The bytes that separate, those that end bare text, and what each begins. */
  lemma {:induction false} BytesExact(s: Bytes, o: nat)
    requires o < |s|
    ensures IsBlank(s[o]) <==> s[o] in {0x09, 0x0A, 0x0D, 0x20}
    ensures IsAsciiWhitespace(s[o]) <==> s[o] in {0x09, 0x0A, 0x0C, 0x0D, 0x20}
    ensures IsBrace(s[o]) <==> s[o] in {0x7B, 0x7D}
    ensures s[o] == 0x7B ==> Lex(s, o) == Before([Spanned(Open, o)], Lex(s, o + 1))
    ensures s[o] == 0x7D ==> Lex(s, o) == Before([Spanned(Close, o)], Lex(s, o + 1))
    ensures s[o] == 0x2F && o + 1 < |s| && s[o + 1] == 0x2F ==> Lex(s, o) == Lex(s, CommentEnd(s, o + 2))
  {
    hide CommentEnd, BareEnd, Quoted;
  }

  /** A comment ends at the first line feed or with the input. */
  lemma {:induction false} CommentExact(s: Bytes, i: nat)
    requires i <= |s|
    ensures var end := CommentEnd(s, i);
            && (forall j :: i <= j < end ==> s[j] != 0x0A)
            && (end < |s| ==> s[end] == 0x0A)
    decreases |s| - i
  {
    if i < |s| && s[i] != 0x0A {
      CommentExact(s, i + 1);
    }
  }

  // ---- Which error ----

  /** One pass over the tokens with a depth and the key waiting for its value. */
  function Fault(tokens: seq<Spanned>, i: nat, depth: nat, key: Option<Spanned>): Option<KvError>
    requires i <= |tokens| && (key.Some? ==> key.value.token.Text?)
    decreases |tokens| - i
  {
    if i == |tokens| then
      if key.Some? then Some(MissingValue(key.value.token.value, key.value.offset))
      else if depth > 0 then Some(UnclosedObject)
      else None
    else
      match tokens[i].token
      case Text(_) => Fault(tokens, i + 1, depth, if key.Some? then None else Some(tokens[i]))
      case Open =>
        if key.None? then Some(MissingValue([0x3C, 0x6F, 0x62, 0x6A, 0x65, 0x63, 0x74, 0x3E], tokens[i].offset))
        else if depth == 32 then Some(TooDeep)
        else Fault(tokens, i + 1, depth + 1, None)
      case Close =>
        if key.Some? then Some(MissingValue(key.value.token.value, tokens[i].offset))
        else if depth == 0 then Some(UnexpectedClose(tokens[i].offset))
        else Fault(tokens, i + 1, depth - 1, None)
  }

  lemma {:induction false} PairsFault(tokens: seq<Spanned>, cursor: nat, depth: nat)
    requires cursor <= |tokens| && depth <= 32
    ensures var r := PairsAt(tokens, cursor, depth, depth > 0);
            && (r.Failed? ==> Fault(tokens, cursor, depth, None) == Some(r.error))
            && (r.Pairs? ==> Fault(tokens, cursor, depth, None) ==
                             if depth > 0 then Fault(tokens, r.cursor, depth - 1, None) else None)
    decreases |tokens| - cursor
  {
    if cursor < |tokens| && tokens[cursor].token.Text? && cursor + 1 < |tokens| {
      assert Fault(tokens, cursor, depth, None) == Fault(tokens, cursor + 1, depth, Some(tokens[cursor]));
      match tokens[cursor + 1].token
      case Text(_) => PairsFault(tokens, cursor + 2, depth);
      case Close =>
      case Open =>
        if depth < 32 {
          PairsFault(tokens, cursor + 2, depth + 1);
          var inner := ObjectAt(tokens, cursor + 2, depth + 1, true);
          if inner.Pairs? {
            PairsFault(tokens, inner.cursor, depth);
          }
        }
    }
  }

  /**
   * The recursive parser rejects exactly what one pass with a depth and a waiting key finds fault with, and
   * with the same error: the first, naming the same key and place.
   */
  lemma {:induction false} FaultExact(tokens: seq<Spanned>)
    ensures var r := ObjectAt(tokens, 0, 0, false);
            Fault(tokens, 0, 0, None) == if r.Failed? then Some(r.error) else None
  {
    PairsFault(tokens, 0, 0);
  }

  /** An input over 8 MiB is refused for its size, whatever it holds, and no other one is. */
  lemma {:induction false} TooLargeExactly(input: Bytes)
    ensures Reading(input) == Returned(Err(TooLarge)) <==> |input| > 8388608
  {
    NeverTooLarge(input, 0);
    match Lex(input, 0)
    case Tokens(tokens) =>
      FaultExact(tokens);
      FaultNotTooLarge(tokens, 0, 0, None);
    case _ =>
  }

  lemma {:induction false} NeverTooLarge(s: Bytes, o: nat)
    requires o <= |s|
    ensures Lex(s, o) != Fails(TooLarge)
    decreases |s| - o
  {
    if o < |s| {
      match TurnAt(s, o)
      case Skip(next) => NeverTooLarge(s, next);
      case Emit(_, next) =>
        if next > o {
          NeverTooLarge(s, next);
        }
      case Fault(_) =>
    }
  }

  lemma {:induction false} FaultNotTooLarge(tokens: seq<Spanned>, i: nat, depth: nat, key: Option<Spanned>)
    requires i <= |tokens| && (key.Some? ==> key.value.token.Text?)
    ensures Fault(tokens, i, depth, key) != Some(TooLarge)
    decreases |tokens| - i
  {
    if i < |tokens| {
      match tokens[i].token
      case Text(_) => FaultNotTooLarge(tokens, i + 1, depth, if key.Some? then None else Some(tokens[i]));
      case Open =>
        if key.Some? && depth != 32 {
          FaultNotTooLarge(tokens, i + 1, depth + 1, None);
        }
      case Close =>
        if key.None? && depth > 0 {
          FaultNotTooLarge(tokens, i + 1, depth - 1, None);
        }
    }
  }
}
