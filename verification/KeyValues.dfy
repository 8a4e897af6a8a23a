/**
 * The VDF reader (crates/kwe-core/src/keyvalues.rs): a tokenizer over bytes and a recursive-descent
 * parser with a shared cursor. Text is kept as UTF-8 bytes, as a Rust `String` is.
 */
module KeyValues {
  import opened Common

  const MAX_VDF_BYTES := 8 * 1024 * 1024
  const MAX_DEPTH := 32

  const TAB: byte := 0x09
  const LF: byte := 0x0A
  const FF: byte := 0x0C
  const CR: byte := 0x0D
  const SPACE: byte := 0x20
  const QUOTE: byte := 0x22
  const SLASH: byte := 0x2F
  const BACKSLASH: byte := 0x5C
  const LOWER_N: byte := 0x6E
  const LOWER_T: byte := 0x74
  const OPEN_BRACE: byte := 0x7B
  const CLOSE_BRACE: byte := 0x7D

  /** `<root>` and `<object>`, the keys named by errors that have none. */
  const OBJECT_KEY: Bytes := [0x3C, 0x6F, 0x62, 0x6A, 0x65, 0x63, 0x74, 0x3E]

  datatype Kv = Str(text: Bytes) | Obj(fields: map<Bytes, Kv>)

  datatype KvError =
    | TooLarge
    | UnterminatedString(at: nat)
    | InvalidEscape(at: nat)
    | MissingValue(key: Bytes, offset: nat)
    | UnexpectedClose(at: nat)
    | UnclosedObject
    | TooDeep

  datatype Token = Text(value: Bytes) | Open | Close

  datatype Spanned = Spanned(token: Token, offset: nat)

  // ---- Tokens ----

  /** The bytes skipped between tokens. */
  predicate IsBlank(b: byte) {
    b == SPACE || b == TAB || b == CR || b == LF
  }

  /** `u8::is_ascii_whitespace`, which also holds of the form feed. */
  predicate IsAsciiWhitespace(b: byte) {
    IsBlank(b) || b == FF
  }

  predicate IsBrace(b: byte) {
    b == OPEN_BRACE || b == CLOSE_BRACE
  }

  /** A byte pushed as a `char`: its UTF-8 encoding as the code point of the same number. */
  function AsChar(b: byte): Bytes {
    if b < 0x80 then [b] else [0xC0 + b / 64, 0x80 + b % 64]
  }

  function CommentEnd(s: Bytes, i: nat): (r: nat)
    requires i <= |s|
    ensures i <= r <= |s|
    decreases |s| - i
  {
    if i == |s| || s[i] == LF then i else CommentEnd(s, i + 1)
  }

  function BareEnd(s: Bytes, i: nat): (r: nat)
    requires i <= |s|
    ensures i <= r <= |s|
    decreases |s| - i
  {
    if i == |s| || IsAsciiWhitespace(s[i]) || IsBrace(s[i]) then i else BareEnd(s, i + 1)
  }

  datatype QuotedText = Closed(value: Bytes, next: nat) | Unterminated | EscapeAtEnd(at: nat)

  function Unescape(b: byte): Bytes {
    if b == QUOTE then [QUOTE]
    else if b == BACKSLASH then [BACKSLASH]
    else if b == LOWER_N then [LF]
    else if b == LOWER_T then [TAB]
    else [BACKSLASH] + AsChar(b)
  }

  /** The rest of a quoted text, from just after the opening quote or any byte inside. */
  function Quoted(s: Bytes, i: nat, value: Bytes): (r: QuotedText)
    requires i <= |s|
    ensures r.Closed? ==> i < r.next <= |s|
    decreases |s| - i
  {
    if i == |s| then Unterminated
    else if s[i] == QUOTE then Closed(value, i + 1)
    else if s[i] == BACKSLASH then
      if i + 1 == |s| then EscapeAtEnd(i + 1) else Quoted(s, i + 2, value + Unescape(s[i + 1]))
    else Quoted(s, i + 1, value + AsChar(s[i]))
  }

  /** What one turn of the tokenizer's loop does at `offset`. */
  datatype Turn = Skip(next: nat) | Emit(token: Token, next: nat) | Fault(error: KvError)

  function TurnAt(s: Bytes, offset: nat): (r: Turn)
    requires offset < |s|
    ensures r.Skip? ==> offset < r.next <= |s|
    ensures r.Emit? ==> offset <= r.next <= |s|
    ensures r.Emit? && r.next == offset ==> s[offset] == FF
  {
    var b := s[offset];
    if IsBlank(b) then Skip(offset + 1)
    else if b == SLASH && offset + 1 < |s| && s[offset + 1] == SLASH then Skip(CommentEnd(s, offset + 2))
    else if b == OPEN_BRACE then Emit(Open, offset + 1)
    else if b == CLOSE_BRACE then Emit(Close, offset + 1)
    else if b == QUOTE then
      match Quoted(s, offset + 1, [])
      case Closed(value, next) => Emit(Text(value), next)
      case Unterminated => Fault(UnterminatedString(offset))
      case EscapeAtEnd(at) => Fault(InvalidEscape(at))
    else
      var end := BareEnd(s, offset);
      Emit(Text(s[offset..end]), end)
  }

  /** `Hangs` is the loop that emits empty tokens for ever without moving on. */
  datatype Lexed = Tokens(tokens: seq<Spanned>) | Fails(error: KvError) | Hangs(at: nat)

  function Before(tokens: seq<Spanned>, rest: Lexed): Lexed {
    match rest
    case Tokens(later) => Tokens(tokens + later)
    case _ => rest
  }

  function Lex(s: Bytes, offset: nat): Lexed
    requires offset <= |s|
    decreases |s| - offset
  {
    if offset == |s| then Tokens([])
    else
      match TurnAt(s, offset)
      case Skip(next) => Lex(s, next)
      case Emit(token, next) =>
        if next == offset then Hangs(offset) else Before([Spanned(token, offset)], Lex(s, next))
      case Fault(error) => Fails(error)
  }

  method Tokenize(s: Bytes) returns (r: Lexed)
    ensures r == Lex(s, 0)
  {
    var tokens: seq<Spanned> := [];
    var offset := 0;
    while offset < |s|
      invariant offset <= |s|
      invariant Lex(s, 0) == Before(tokens, Lex(s, offset))
      decreases |s| - offset
    {
      ghost var start := offset;
      var b := s[offset];
      if IsBlank(b) {
        offset := offset + 1;
      } else if b == SLASH && offset + 1 < |s| && s[offset + 1] == SLASH {
        offset := offset + 2;
        while offset < |s| && s[offset] != LF
          invariant start + 2 <= offset <= |s|
          invariant CommentEnd(s, start + 2) == CommentEnd(s, offset)
        {
          offset := offset + 1;
        }
      } else if b == OPEN_BRACE {
        BeforeTwice(tokens, Spanned(Open, offset), Lex(s, offset + 1));
        tokens := tokens + [Spanned(Open, offset)];
        offset := offset + 1;
      } else if b == CLOSE_BRACE {
        BeforeTwice(tokens, Spanned(Close, offset), Lex(s, offset + 1));
        tokens := tokens + [Spanned(Close, offset)];
        offset := offset + 1;
      } else if b == QUOTE {
        var quoted, next := ReadQuoted(s, offset);
        if quoted.Err? {
          return Fails(quoted.error);
        }
        BeforeTwice(tokens, Spanned(Text(quoted.value), offset), Lex(s, next));
        tokens := tokens + [Spanned(Text(quoted.value), offset)];
        offset := next;
      } else {
        var end := offset;
        while end < |s| && !IsAsciiWhitespace(s[end]) && !IsBrace(s[end])
          invariant offset <= end <= |s|
          invariant BareEnd(s, offset) == BareEnd(s, end)
        {
          end := end + 1;
        }
        if end == offset {
          // The source pushes an empty token here and comes back to the same byte.
          return Hangs(offset);
        }
        BeforeTwice(tokens, Spanned(Text(s[offset..end]), offset), Lex(s, end));
        tokens := tokens + [Spanned(Text(s[offset..end]), offset)];
        offset := end;
      }
    }
    return Tokens(tokens);
  }

  /** The quoted arm of the tokenizer: `start` is the opening quote. */
  method ReadQuoted(s: Bytes, start: nat) returns (r: Result<Bytes, KvError>, offset: nat)
    requires start < |s| && s[start] == QUOTE
    ensures match Quoted(s, start + 1, [])
            case Closed(value, next) => r == Ok(value) && offset == next
            case Unterminated => r == Err(UnterminatedString(start))
            case EscapeAtEnd(at) => r == Err(InvalidEscape(at))
  {
    offset := start + 1;
    var value: Bytes := [];
    while offset < |s|
      invariant start < offset <= |s|
      invariant Quoted(s, start + 1, []) == Quoted(s, offset, value)
      decreases |s| - offset
    {
      if s[offset] == QUOTE {
        offset := offset + 1;
        return Ok(value), offset;
      } else if s[offset] == BACKSLASH {
        offset := offset + 1;
        if offset == |s| {
          return Err(InvalidEscape(offset)), offset;
        }
        value := value + Unescape(s[offset]);
        offset := offset + 1;
      } else {
        value := value + AsChar(s[offset]);
        offset := offset + 1;
      }
    }
    return Err(UnterminatedString(start)), offset;
  }

  lemma {:induction false} BeforeTwice(tokens: seq<Spanned>, t: Spanned, rest: Lexed)
    ensures Before(tokens, Before([t], rest)) == Before(tokens + [t], rest)
  {
  }

  // ---- Objects ----

  /** A parse tree: the pairs of an object in the order written, duplicates included. */
  datatype Item = Leaf(key: Bytes, value: Bytes) | Node(key: Bytes, items: seq<Item>)

  /** The map an object's pairs build: a later duplicate key wins. */
  function Fields(items: seq<Item>): map<Bytes, Kv> {
    if items == [] then map[]
    else
      var last := items[|items| - 1];
      Fields(items[..|items| - 1])[last.key := ValueOf(last)]
  }

  function ValueOf(item: Item): Kv {
    match item
    case Leaf(_, value) => Str(value)
    case Node(_, items) => Obj(Fields(items))
  }

  datatype Parsed = Pairs(items: seq<Item>, cursor: nat) | Failed(error: KvError)

  function With(items: seq<Item>, rest: Parsed): Parsed {
    match rest
    case Pairs(later, cursor) => Pairs(items + later, cursor)
    case Failed(_) => rest
  }

  function ObjectAt(tokens: seq<Spanned>, cursor: nat, depth: nat, expectClose: bool): (r: Parsed)
    requires cursor <= |tokens|
    ensures r.Pairs? ==> cursor <= r.cursor <= |tokens|
    decreases |tokens| - cursor, 1
  {
    if depth > MAX_DEPTH then Failed(TooDeep) else PairsAt(tokens, cursor, depth, expectClose)
  }

  function PairsAt(tokens: seq<Spanned>, cursor: nat, depth: nat, expectClose: bool): (r: Parsed)
    requires cursor <= |tokens|
    ensures r.Pairs? ==> cursor <= r.cursor <= |tokens|
    decreases |tokens| - cursor, 0
  {
    if cursor == |tokens| then
      if expectClose then Failed(UnclosedObject) else Pairs([], cursor)
    else
      match tokens[cursor].token
      case Close => if expectClose then Pairs([], cursor + 1) else Failed(UnexpectedClose(tokens[cursor].offset))
      case Open => Failed(MissingValue(OBJECT_KEY, tokens[cursor].offset))
      case Text(key) =>
        if cursor + 1 == |tokens| then Failed(MissingValue(key, tokens[cursor].offset))
        else
          match tokens[cursor + 1].token
          case Text(value) => With([Leaf(key, value)], PairsAt(tokens, cursor + 2, depth, expectClose))
          case Close => Failed(MissingValue(key, tokens[cursor + 1].offset))
          case Open =>
            match ObjectAt(tokens, cursor + 2, depth + 1, true)
            case Failed(error) => Failed(error)
            case Pairs(items, next) => With([Node(key, items)], PairsAt(tokens, next, depth, expectClose))
  }

  method ParseObject(tokens: seq<Spanned>, cursor: nat, depth: nat, expectClose: bool)
    returns (r: Result<map<Bytes, Kv>, KvError>, next: nat)
    requires cursor <= |tokens|
    ensures match ObjectAt(tokens, cursor, depth, expectClose)
            case Pairs(items, c) => r == Ok(Fields(items)) && next == c
            case Failed(error) => r == Err(error)
    decreases |tokens| - cursor
  {
    next := cursor;
    if depth > MAX_DEPTH {
      return Err(TooDeep), next;
    }
    var result: map<Bytes, Kv> := map[];
    ghost var items: seq<Item> := [];
    while next < |tokens|
      invariant cursor <= next <= |tokens|
      invariant result == Fields(items)
      invariant PairsAt(tokens, cursor, depth, expectClose) == With(items, PairsAt(tokens, next, depth, expectClose))
      decreases |tokens| - next
    {
      var current := tokens[next];
      match current.token {
        case Close =>
          assert items + [] == items;
          if expectClose {
            return Ok(result), next + 1;
          }
          return Err(UnexpectedClose(current.offset)), next;
        case Open =>
          return Err(MissingValue(OBJECT_KEY, current.offset)), next;
        case Text(key) =>
          if next + 1 == |tokens| {
            return Err(MissingValue(key, current.offset)), next;
          }
          var value: Kv;
          ghost var item: Item;
          ghost var start := next;
          match tokens[next + 1].token {
            case Text(text) =>
              next := next + 2;
              value := Str(text);
              item := Leaf(key, text);
            case Close =>
              return Err(MissingValue(key, tokens[next + 1].offset)), next;
            case Open =>
              var inner, after := ParseObject(tokens, next + 2, depth + 1, true);
              if inner.Err? {
                return Err(inner.error), after;
              }
              next := after;
              value := Obj(inner.value);
              item := Node(key, ObjectAt(tokens, start + 2, depth + 1, true).items);
          }
          WithTwice(items, item, PairsAt(tokens, next, depth, expectClose));
          FieldsAppend(items, item);
          result := result[key := value];
          items := items + [item];
      }
    }
    assert items + [] == items;
    if expectClose {
      return Err(UnclosedObject), next;
    }
    return Ok(result), next;
  }

  lemma {:induction false} WithTwice(items: seq<Item>, item: Item, rest: Parsed)
    ensures With(items, With([item], rest)) == With(items + [item], rest)
  {
  }

  lemma {:induction false} FieldsAppend(items: seq<Item>, item: Item)
    ensures Fields(items + [item]) == Fields(items)[item.key := ValueOf(item)]
  {
  }

  // ---- The reader ----

  datatype Read = Returned(result: Result<Kv, KvError>) | NeverReturns

  /** What reading a whole input gives. */
  function Reading(input: Bytes): Read {
    if |input| > MAX_VDF_BYTES then Returned(Err(TooLarge))
    else
      match Lex(input, 0)
      case Hangs(_) => NeverReturns
      case Fails(error) => Returned(Err(error))
      case Tokens(tokens) =>
        match ObjectAt(tokens, 0, 0, false)
        case Failed(error) => Returned(Err(error))
        case Pairs(items, _) => Returned(Ok(Obj(Fields(items))))
  }

  /** No token can be left over: without an expected close the parser stops only at the end. */
  method ParseKeyValues(input: Bytes) returns (r: Read)
    ensures r == Reading(input)
  {
    if |input| > MAX_VDF_BYTES {
      return Returned(Err(TooLarge));
    }
    var lexed := Tokenize(input);
    match lexed {
      case Hangs(_) =>
        return NeverReturns;
      case Fails(error) =>
        return Returned(Err(error));
      case Tokens(tokens) =>
        var root, cursor := ParseObject(tokens, 0, 0, false);
        if root.Err? {
          return Returned(Err(root.error));
        }
        return Returned(Ok(Obj(root.value)));
    }
  }
}
