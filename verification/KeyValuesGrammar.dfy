/** The grammar the VDF parser accepts, and when its tokenizer returns at all. */
module KeyValuesGrammar {
  import opened Common
  import opened KeyValues

  // ---- The grammar: (Text Text | Text Open pairs Close)* ----

  function Yield(items: seq<Item>): seq<Token>
  {
    if items == [] then [] else YieldItem(items[0]) + Yield(items[1..])
  }

  function YieldItem(item: Item): seq<Token> {
    match item
    case Leaf(key, value) => [Text(key), Text(value)]
    case Node(key, items) => [Text(key), Open] + Yield(items) + [Close]
  }

  /** How many levels of objects are nested inside. */
  function Levels(items: seq<Item>): nat {
    if items == [] then 0 else Max(LevelsOf(items[0]), Levels(items[1..]))
  }

  function LevelsOf(item: Item): nat {
    match item
    case Leaf(_, _) => 0
    case Node(_, items) => 1 + Levels(items)
  }

  function Max(a: nat, b: nat): nat {
    if a < b then b else a
  }

  function Kinds(tokens: seq<Spanned>): (r: seq<Token>)
    ensures |r| == |tokens|
    ensures forall i :: 0 <= i < |r| ==> r[i] == tokens[i].token
  {
    seq(|tokens|, i requires 0 <= i < |tokens| => tokens[i].token)
  }

  function Closing(expectClose: bool): seq<Token> {
    if expectClose then [Close] else []
  }

  /** The tokens the parse used are those the grammar derives, within the depth. */
  ghost predicate Derives(tokens: seq<Spanned>, cursor: nat, depth: nat, expectClose: bool, r: Parsed)
    requires r.Pairs? && cursor <= r.cursor <= |tokens|
  {
    && Kinds(tokens[cursor..r.cursor]) == Yield(r.items) + Closing(expectClose)
    && depth + Levels(r.items) <= MAX_DEPTH
    && (!expectClose ==> r.cursor == |tokens|)
  }

  lemma {:induction false} ConsDerives(tokens: seq<Spanned>, cursor: nat, after: nat, depth: nat, expectClose: bool,
                                       item: Item, later: Parsed)
    requires later.Pairs? && cursor <= after <= later.cursor <= |tokens|
    requires Kinds(tokens[cursor..after]) == YieldItem(item) && depth + LevelsOf(item) <= MAX_DEPTH
    requires Derives(tokens, after, depth, expectClose, later)
    ensures Derives(tokens, cursor, depth, expectClose, With([item], later))
  {
  }

  lemma {:induction false} NodeDerives(tokens: seq<Spanned>, cursor: nat, depth: nat, inner: Parsed)
    requires inner.Pairs? && cursor + 2 <= inner.cursor <= |tokens|
    requires tokens[cursor].token.Text? && tokens[cursor + 1].token.Open?
    requires Derives(tokens, cursor + 2, depth, true, inner)
    ensures Kinds(tokens[cursor..inner.cursor]) == YieldItem(Node(tokens[cursor].token.value, inner.items))
  {
  }

  lemma {:induction false} EndDerives(tokens: seq<Spanned>, cursor: nat, depth: nat, expectClose: bool)
    requires cursor <= |tokens| && depth <= MAX_DEPTH
    requires if cursor == |tokens| then !expectClose else expectClose && tokens[cursor].token.Close?
    ensures var r := PairsAt(tokens, cursor, depth, expectClose);
            r.Pairs? && Derives(tokens, cursor, depth, expectClose, r)
  {
    if cursor == |tokens| {
      assert Kinds(tokens[cursor..cursor]) == [] + [];
    } else {
      assert Kinds(tokens[cursor..cursor + 1]) == [] + [Close];
    }
  }

  lemma {:induction false} LeafDerives(tokens: seq<Spanned>, cursor: nat)
    requires cursor + 2 <= |tokens| && tokens[cursor].token.Text? && tokens[cursor + 1].token.Text?
    ensures Kinds(tokens[cursor..cursor + 2]) ==
            YieldItem(Leaf(tokens[cursor].token.value, tokens[cursor + 1].token.value))
  {
  }

  /** What the parser accepts is derived by the grammar, ends where it says, and keeps to the depth. */
  lemma {:induction false} ParsedIsDerived(tokens: seq<Spanned>, cursor: nat, depth: nat, expectClose: bool)
    requires cursor <= |tokens| && depth <= MAX_DEPTH
    ensures var r := PairsAt(tokens, cursor, depth, expectClose);
            r.Pairs? ==> Derives(tokens, cursor, depth, expectClose, r)
    decreases |tokens| - cursor
  {
    hide Yield, YieldItem, Levels, Kinds;
    var r := PairsAt(tokens, cursor, depth, expectClose);
    if r.Pairs? {
      if cursor == |tokens| || tokens[cursor].token.Close? {
        EndDerives(tokens, cursor, depth, expectClose);
      } else if tokens[cursor + 1].token.Text? {
        var item := Leaf(tokens[cursor].token.value, tokens[cursor + 1].token.value);
        ParsedIsDerived(tokens, cursor + 2, depth, expectClose);
        LeafDerives(tokens, cursor);
        ConsDerives(tokens, cursor, cursor + 2, depth, expectClose, item,
                    PairsAt(tokens, cursor + 2, depth, expectClose));
      } else {
        var inner := ObjectAt(tokens, cursor + 2, depth + 1, true);
        ParsedIsDerived(tokens, cursor + 2, depth + 1, true);
        ParsedIsDerived(tokens, inner.cursor, depth, expectClose);
        NodeDerives(tokens, cursor, depth + 1, inner);
        ConsDerives(tokens, cursor, inner.cursor, depth, expectClose, Node(tokens[cursor].token.value, inner.items),
                    PairsAt(tokens, inner.cursor, depth, expectClose));
      }
    }
  }

  ghost predicate Starts(tokens: seq<Spanned>, cursor: nat, want: seq<Token>) {
    cursor + |want| <= |tokens| && forall i :: 0 <= i < |want| ==> tokens[cursor + i].token == want[i]
  }

  lemma {:induction false} StartsSplit(tokens: seq<Spanned>, cursor: nat, a: seq<Token>, b: seq<Token>)
    requires Starts(tokens, cursor, a + b)
    ensures Starts(tokens, cursor, a) && Starts(tokens, cursor + |a|, b)
  {
    forall i | 0 <= i < |a|
      ensures tokens[cursor + i].token == a[i]
    {
      assert tokens[cursor + i].token == (a + b)[i];
    }
    forall i | 0 <= i < |b|
      ensures tokens[cursor + |a| + i].token == b[i]
    {
      assert tokens[cursor + (|a| + i)].token == (a + b)[|a| + i];
    }
  }

  /** Every derivation within the depth is found. */
  lemma {:induction false} DerivedIsParsed(tokens: seq<Spanned>, cursor: nat, depth: nat, expectClose: bool,
                                           items: seq<Item>)
    requires Starts(tokens, cursor, Yield(items) + Closing(expectClose))
    requires !expectClose ==> cursor + |Yield(items)| == |tokens|
    requires depth + Levels(items) <= MAX_DEPTH
    ensures PairsAt(tokens, cursor, depth, expectClose)
            == Pairs(items, cursor + |Yield(items)| + |Closing(expectClose)|)
    decreases items
  {
    if items == [] {
      assert expectClose ==> tokens[cursor + 0].token == ([] + [Close])[0];
    } else {
      var item, later := items[0], items[1..];
      var after := cursor + |YieldItem(item)|;
      StartsCons(tokens, cursor, items, Closing(expectClose));
      DerivedIsParsed(tokens, after, depth, expectClose, later);
      ItemIsParsed(tokens, cursor, depth, item);
      ConsParsed(tokens, cursor, depth, expectClose, item, after);
      assert [item] + later == items;
    }
  }

  lemma {:induction false} StartsCons(tokens: seq<Spanned>, cursor: nat, items: seq<Item>, closing: seq<Token>)
    requires items != [] && Starts(tokens, cursor, Yield(items) + closing)
    ensures Starts(tokens, cursor, YieldItem(items[0]))
    ensures Starts(tokens, cursor + |YieldItem(items[0])|, Yield(items[1..]) + closing)
    ensures |Yield(items)| == |YieldItem(items[0])| + |Yield(items[1..])|
  {
    hide YieldItem, Starts;
    assert Yield(items) + closing == YieldItem(items[0]) + (Yield(items[1..]) + closing);
    StartsSplit(tokens, cursor, YieldItem(items[0]), Yield(items[1..]) + closing);
  }

  /** The first pair stands where the parser looks for it. */
  ghost predicate PairAt(tokens: seq<Spanned>, cursor: nat, depth: nat, item: Item) {
    var after := cursor + |YieldItem(item)|;
    && cursor + 2 <= after <= |tokens|
    && tokens[cursor].token == Text(item.key)
    && match item
       case Leaf(_, value) => tokens[cursor + 1].token == Text(value) && after == cursor + 2
       case Node(_, items) =>
         tokens[cursor + 1].token == Open && ObjectAt(tokens, cursor + 2, depth + 1, true) == Pairs(items, after)
  }

  lemma {:induction false} ItemIsParsed(tokens: seq<Spanned>, cursor: nat, depth: nat, item: Item)
    requires Starts(tokens, cursor, YieldItem(item)) && depth + LevelsOf(item) <= MAX_DEPTH
    ensures PairAt(tokens, cursor, depth, item)
    decreases item
  {
    if item.Leaf? {
      DerivedLeaf(tokens, cursor, item);
    } else {
      DerivedNode(tokens, cursor, item);
      DerivedIsParsed(tokens, cursor + 2, depth + 1, true, item.items);
    }
  }

  /** The parser takes the first pair off and goes on after it. */
  lemma {:induction false} ConsParsed(tokens: seq<Spanned>, cursor: nat, depth: nat, expectClose: bool, item: Item,
                                      after: nat)
    requires PairAt(tokens, cursor, depth, item) && after == cursor + |YieldItem(item)|
    ensures PairsAt(tokens, cursor, depth, expectClose) == With([item], PairsAt(tokens, after, depth, expectClose))
  {
  }

  lemma {:induction false} DerivedLeaf(tokens: seq<Spanned>, cursor: nat, item: Item)
    requires item.Leaf? && Starts(tokens, cursor, YieldItem(item))
    ensures tokens[cursor].token == Text(item.key) && tokens[cursor + 1].token == Text(item.value)
    ensures |YieldItem(item)| == 2
  {
    assert YieldItem(item)[0] == Text(item.key) && YieldItem(item)[1] == Text(item.value);
    assert tokens[cursor + 0].token == Text(item.key) && tokens[cursor + 1].token == Text(item.value);
  }

  lemma {:induction false} DerivedNode(tokens: seq<Spanned>, cursor: nat, item: Item)
    requires item.Node? && Starts(tokens, cursor, YieldItem(item))
    ensures tokens[cursor].token == Text(item.key) && tokens[cursor + 1].token == Open
    ensures Starts(tokens, cursor + 2, Yield(item.items) + [Close])
    ensures |YieldItem(item)| == 2 + |Yield(item.items)| + 1
  {
    var head := [Text(item.key), Open];
    assert YieldItem(item) == head + (Yield(item.items) + [Close]);
    StartsSplit(tokens, cursor, head, Yield(item.items) + [Close]);
    assert tokens[cursor + 0].token == head[0] && tokens[cursor + 1].token == head[1];
  }

  /**
   * A token stream is accepted, with a given tree, exactly when the grammar derives it from that tree
   * and the tree nests at most 32 objects deep. Acceptance always consumes every token.
   */
  lemma {:induction false} GrammarExact(tokens: seq<Spanned>, items: seq<Item>)
    ensures ObjectAt(tokens, 0, 0, false) == Pairs(items, |tokens|) <==>
            Kinds(tokens) == Yield(items) && Levels(items) <= MAX_DEPTH
    ensures ObjectAt(tokens, 0, 0, false).Pairs? ==> ObjectAt(tokens, 0, 0, false).cursor == |tokens|
  {
    ParsedIsDerived(tokens, 0, 0, false);
    assert tokens[0..] == tokens && tokens[0..|tokens|] == tokens;
    assert Yield(items) + [] == Yield(items);
    if Kinds(tokens) == Yield(items) && Levels(items) <= MAX_DEPTH {
      assert forall i :: 0 <= i < |tokens| ==> tokens[0 + i].token == Kinds(tokens)[i];
      DerivedIsParsed(tokens, 0, 0, false, items);
    }
  }

  /** The value of a key is the one written last. */
  lemma {:induction false} LastDuplicateWins(items: seq<Item>, i: nat)
    requires i < |items| && forall j :: i < j < |items| ==> items[j].key != items[i].key
    ensures items[i].key in Fields(items) && Fields(items)[items[i].key] == ValueOf(items[i])
  {
    if i < |items| - 1 {
      LastDuplicateWins(items[..|items| - 1], i);
    }
  }

  lemma {:induction false} KeysAreWritten(items: seq<Item>, key: Bytes)
    ensures key in Fields(items) <==> exists i :: 0 <= i < |items| && items[i].key == key
  {
    if items != [] {
      var before := items[..|items| - 1];
      KeysAreWritten(before, key);
      assert forall i :: 0 <= i < |before| ==> before[i] == items[i];
      assert items[|items| - 1].key in Fields(items);
    }
  }

  // ---- When the tokenizer returns ----

  /** One turn of the tokenizer's loop, repeated `n` times from `offset`, while it goes on. */
  function Turns(s: Bytes, offset: nat, n: nat): (seq<Token>, nat)
    requires offset <= |s|
    ensures Turns(s, offset, n).1 <= |s|
    decreases n
  {
    if n == 0 || offset == |s| then ([], offset)
    else
      match TurnAt(s, offset)
      case Skip(next) => Turns(s, next, n - 1)
      case Emit(token, next) =>
        var (tokens, end) := Turns(s, next, n - 1);
        ([token] + tokens, end)
      case Fault(_) => ([], offset)
  }

  /** At a form feed between tokens the loop emits an empty token per turn and never moves. */
  lemma {:induction false} FormFeedNeverPasses(s: Bytes, at: nat, n: nat)
    requires at < |s| && s[at] == FF
    ensures Turns(s, at, n).1 == at && |Turns(s, at, n).0| == n
    ensures forall t :: t in Turns(s, at, n).0 ==> t == Text([])
  {
    if n > 0 {
      assert s[at..at] == [];
      assert TurnAt(s, at) == Emit(Text([]), at);
      FormFeedNeverPasses(s, at, n - 1);
    }
  }

  datatype Mode = Between | Bare | InQuotes | Escaped | InComment

  /** A byte-by-byte scan for a form feed outside quoted text and comments. */
  predicate ExposedFormFeed(s: Bytes, i: nat, mode: Mode)
    decreases |s| - i
  {
    i < |s| &&
    match mode
    case Between =>
      if s[i] == FF then true
      else if s[i] == QUOTE then ExposedFormFeed(s, i + 1, InQuotes)
      else if s[i] == SLASH && i + 1 < |s| && s[i + 1] == SLASH then ExposedFormFeed(s, i + 2, InComment)
      else ExposedFormFeed(s, i + 1, if IsBlank(s[i]) || IsBrace(s[i]) then Between else Bare)
    case Bare =>
      if s[i] == FF then true
      else ExposedFormFeed(s, i + 1, if IsBlank(s[i]) || IsBrace(s[i]) then Between else Bare)
    case InQuotes =>
      ExposedFormFeed(s, i + 1, if s[i] == QUOTE then Between else if s[i] == BACKSLASH then Escaped else InQuotes)
    case Escaped => ExposedFormFeed(s, i + 1, InQuotes)
    case InComment => ExposedFormFeed(s, i + 1, if s[i] == LF then Between else InComment)
  }

  lemma {:induction false} BareScan(s: Bytes, i: nat)
    requires i <= |s|
    ensures ExposedFormFeed(s, i, Bare) == ExposedFormFeed(s, BareEnd(s, i), Between)
    decreases |s| - i
  {
    if i < |s| && !IsAsciiWhitespace(s[i]) && !IsBrace(s[i]) {
      BareScan(s, i + 1);
    }
  }

  lemma {:induction false} CommentScan(s: Bytes, i: nat)
    requires i <= |s|
    ensures ExposedFormFeed(s, i, InComment) == ExposedFormFeed(s, CommentEnd(s, i), Between)
    decreases |s| - i
  {
    if i < |s| && s[i] != LF {
      CommentScan(s, i + 1);
    }
  }

  lemma {:induction false} QuotedScan(s: Bytes, i: nat, value: Bytes)
    requires i <= |s|
    ensures ExposedFormFeed(s, i, InQuotes) ==
            (Quoted(s, i, value).Closed? && ExposedFormFeed(s, Quoted(s, i, value).next, Between))
    decreases |s| - i
  {
    if i < |s| && s[i] != QUOTE {
      if s[i] != BACKSLASH {
        QuotedScan(s, i + 1, value + AsChar(s[i]));
      } else if i + 1 < |s| {
        QuotedScan(s, i + 2, value + Unescape(s[i + 1]));
        assert ExposedFormFeed(s, i + 1, Escaped) == ExposedFormFeed(s, i + 2, InQuotes);
      }
    }
  }

  /** The tokenizer fails to return exactly on a form feed outside quoted text and comments. */
  lemma {:induction false} HangsExactly(s: Bytes, i: nat)
    requires i <= |s|
    ensures Lex(s, i).Hangs? <==> ExposedFormFeed(s, i, Between)
    decreases |s| - i
  {
    if i < |s| {
      match TurnAt(s, i)
      case Skip(next) =>
        HangsExactly(s, next);
        if !IsBlank(s[i]) {
          CommentScan(s, i + 2);
        }
      case Emit(token, next) =>
        if next > i {
          HangsExactly(s, next);
          if s[i] == QUOTE {
            QuotedScan(s, i + 1, []);
          } else if !IsBrace(s[i]) {
            BareScan(s, i + 1);
          }
        }
      case Fault(_) =>
        QuotedScan(s, i + 1, []);
    }
  }

  /** `parse_key_values` returns on every input within the limit but those; a lone form feed is one. */
  lemma {:induction false} ReturnsExactly(input: Bytes)
    ensures Reading(input) == NeverReturns <==> |input| <= MAX_VDF_BYTES && ExposedFormFeed(input, 0, Between)
    ensures Reading([FF]) == NeverReturns
  {
    HangsExactly(input, 0);
    HangsExactly([FF], 0);
  }
}
