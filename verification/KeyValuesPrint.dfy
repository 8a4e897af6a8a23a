/** A printer for VDF trees, and what the reader makes of its output. */
module KeyValuesPrint {
  import opened Common
  import opened KeyValues
  import opened KeyValuesGrammar

  function EscapeByte(b: byte): Bytes {
    if b == QUOTE || b == BACKSLASH then [BACKSLASH, b] else [b]
  }

  function Escape(t: Bytes): Bytes {
    if t == [] then [] else EscapeByte(t[0]) + Escape(t[1..])
  }

  function Quote(t: Bytes): Bytes {
    [QUOTE] + (Escape(t) + [QUOTE])
  }

  function PrintItem(item: Item): Bytes {
    match item
    case Leaf(key, value) => Quote(key) + ([SPACE] + (Quote(value) + [LF]))
    case Node(key, items) => Quote(key) + ([SPACE, OPEN_BRACE, LF] + (Print(items) + [CLOSE_BRACE, LF]))
  }

  function Print(items: seq<Item>): Bytes {
    if items == [] then [] else PrintItem(items[0]) + Print(items[1..])
  }

  /** Quoted text as the reader sees it: every byte becomes a character. */
  function Misread(t: Bytes): Bytes {
    if t == [] then [] else AsChar(t[0]) + Misread(t[1..])
  }

  function MisreadItem(item: Item): Item {
    match item
    case Leaf(key, value) => Leaf(Misread(key), Misread(value))
    case Node(key, items) => Node(Misread(key), MisreadAll(items))
  }

  function MisreadAll(items: seq<Item>): seq<Item> {
    if items == [] then [] else [MisreadItem(items[0])] + MisreadAll(items[1..])
  }

  predicate Ascii(t: Bytes) {
    forall b :: b in t ==> b < 0x80
  }

  predicate AsciiItem(item: Item) {
    match item
    case Leaf(key, value) => Ascii(key) && Ascii(value)
    case Node(key, items) => Ascii(key) && AsciiItems(items)
  }

  predicate AsciiItems(items: seq<Item>) {
    items == [] || (AsciiItem(items[0]) && AsciiItems(items[1..]))
  }

  // ---- Reading printed bytes ----

  lemma {:induction false} QuotedByte(s: Bytes, o: nat, b: byte, value: Bytes)
    requires At(s, o, EscapeByte(b))
    ensures Quoted(s, o, value) == Quoted(s, o + |EscapeByte(b)|, value + AsChar(b))
  {
    AtByte(s, o, EscapeByte(b), 0);
    AtByte(s, o, EscapeByte(b), |EscapeByte(b)| - 1);
  }

  lemma {:induction false} EscapeCons(t: Bytes, value: Bytes)
    requires t != []
    ensures Escape(t) + [QUOTE] == EscapeByte(t[0]) + (Escape(t[1..]) + [QUOTE])
    ensures |Escape(t)| == |EscapeByte(t[0])| + |Escape(t[1..])|
    ensures value + Misread(t) == (value + AsChar(t[0])) + Misread(t[1..])
  {
  }

  lemma {:induction false} QuotedEnds(s: Bytes, o: nat, value: Bytes)
    requires At(s, o, Escape([]) + [QUOTE])
    ensures Quoted(s, o, value) == Closed(value + Misread([]), o + 1)
  {
    AtByte(s, o, [] + [QUOTE], 0);
    assert value + [] == value;
  }

  lemma {:induction false} QuotedReads(s: Bytes, o: nat, t: Bytes, value: Bytes)
    requires At(s, o, Escape(t) + [QUOTE])
    ensures Quoted(s, o, value) == Closed(value + Misread(t), o + |Escape(t)| + 1)
    decreases t
  {
    hide Quoted, EscapeByte, AsChar, At, Misread;
    if t == [] {
      QuotedEnds(s, o, value);
    } else {
      hide Escape;
      EscapeCons(t, value);
      AtSplit(s, o, EscapeByte(t[0]), Escape(t[1..]) + [QUOTE]);
      QuotedByte(s, o, t[0], value);
      QuotedReads(s, o + |EscapeByte(t[0])|, t[1..], value + AsChar(t[0]));
    }
  }

  lemma {:induction false} TurnReadsQuote(s: Bytes, o: nat, t: Bytes)
    requires At(s, o, Quote(t))
    ensures Lex(s, o) == Before([Spanned(Text(Misread(t)), o)], Lex(s, o + |Quote(t)|))
  {
    hide Escape, Misread, Quoted, At;
    assert TurnAt(s, o) == Emit(Text(Misread(t)), o + |Quote(t)|) by {
      AtSplit(s, o, [QUOTE], Escape(t) + [QUOTE]);
      AtByte(s, o, [QUOTE], 0);
      QuotedReads(s, o + 1, t, []);
      assert [] + Misread(t) == Misread(t);
    }
    hide TurnAt;
  }

  /** Blanks and whole-line comments, in any number. */
  predicate IsGap(gap: Bytes)
    decreases |gap|
  {
    if gap == [] then true
    else if IsBlank(gap[0]) then IsGap(gap[1..])
    else
      && |gap| >= 2 && gap[0] == SLASH && gap[1] == SLASH
      && CommentEnd(gap, 2) < |gap| && IsGap(gap[CommentEnd(gap, 2) + 1..])
  }

  lemma {:induction false} CommentEndsAlike(s: Bytes, o: nat, gap: Bytes, i: nat)
    requires At(s, o, gap) && i <= |gap| && CommentEnd(gap, i) < |gap|
    ensures CommentEnd(s, o + i) == o + CommentEnd(gap, i) && gap[CommentEnd(gap, i)] == LF
    decreases |gap| - i
  {
    AtByte(s, o, gap, i);
    if gap[i] != LF {
      CommentEndsAlike(s, o, gap, i + 1);
    }
  }

  lemma {:induction false} CommentTurn(s: Bytes, o: nat)
    requires o + 1 < |s| && s[o] == SLASH && s[o + 1] == SLASH
    ensures Lex(s, o) == Lex(s, CommentEnd(s, o + 2))
  {
    hide CommentEnd;
  }

  lemma {:induction false} CommentSkips(s: Bytes, o: nat, gap: Bytes)
    requires At(s, o, gap) && |gap| >= 2 && gap[0] == SLASH && gap[1] == SLASH && CommentEnd(gap, 2) < |gap|
    ensures Lex(s, o) == Lex(s, o + CommentEnd(gap, 2) + 1)
  {
    hide Lex, CommentEnd, At;
    var end := CommentEnd(gap, 2);
    AtByte(s, o, gap, 0);
    AtByte(s, o, gap, 1);
    CommentEndsAlike(s, o, gap, 2);
    AtByte(s, o, gap, end);
    CommentTurn(s, o);
    TurnSkips(s, o + end);
  }

  /** What stands between tokens changes nothing about them. */
  lemma {:induction false} GapsAreIgnored(s: Bytes, o: nat, gap: Bytes)
    requires At(s, o, gap) && IsGap(gap)
    ensures Lex(s, o) == Lex(s, o + |gap|)
    decreases |gap|
  {
    hide Lex;
    if gap != [] {
      var next := if IsBlank(gap[0]) then 1 else CommentEnd(gap, 2) + 1;
      if IsBlank(gap[0]) {
        AtByte(s, o, gap, 0);
        TurnSkips(s, o);
      } else {
        CommentSkips(s, o, gap);
      }
      assert gap == gap[..next] + gap[next..];
      AtSplit(s, o, gap[..next], gap[next..]);
      GapsAreIgnored(s, o + next, gap[next..]);
    }
  }

  /** A text that needs no quotes: no white space or braces, and not starting like something else. */
  predicate IsBareWord(w: Bytes) {
    && w != [] && w[0] != QUOTE && !(|w| >= 2 && w[0] == SLASH && w[1] == SLASH)
    && forall i :: 0 <= i < |w| ==> !IsAsciiWhitespace(w[i]) && !IsBrace(w[i])
  }

  lemma {:induction false} BareEndsAlike(s: Bytes, o: nat, w: Bytes, i: nat)
    requires At(s, o, w) && i <= |w| && forall j :: 0 <= j < |w| ==> !IsAsciiWhitespace(w[j]) && !IsBrace(w[j])
    requires o + |w| == |s| || IsAsciiWhitespace(s[o + |w|]) || IsBrace(s[o + |w|])
    ensures BareEnd(s, o + i) == o + |w|
    decreases |w| - i
  {
    if i < |w| {
      AtByte(s, o, w, i);
      BareEndsAlike(s, o, w, i + 1);
    }
  }

  /** Unquoted text up to white space, a brace or the end is taken byte for byte. */
  lemma {:induction false} BareWordReads(s: Bytes, o: nat, w: Bytes)
    requires At(s, o, w) && IsBareWord(w)
    requires o + |w| == |s| || IsAsciiWhitespace(s[o + |w|]) || IsBrace(s[o + |w|])
    ensures Lex(s, o) == Before([Spanned(Text(w), o)], Lex(s, o + |w|))
  {
    AtByte(s, o, w, 0);
    if |w| >= 2 {
      AtByte(s, o, w, 1);
    }
    BareEndsAlike(s, o, w, 0);
  }

  lemma {:induction false} TurnSkips(s: Bytes, o: nat)
    requires o < |s| && IsBlank(s[o])
    ensures Lex(s, o) == Lex(s, o + 1)
  {
  }

  lemma {:induction false} TurnReadsBrace(s: Bytes, o: nat)
    requires o < |s| && IsBrace(s[o])
    ensures Lex(s, o) == Before([Spanned(if s[o] == OPEN_BRACE then Open else Close, o)], Lex(s, o + 1))
  {
  }

  lemma {:induction false} BeforeAll(a: seq<Spanned>, b: seq<Spanned>, rest: Lexed)
    ensures Before(a, Before(b, rest)) == Before(a + b, rest)
  {
  }

  lemma {:induction false} LexLeaf(s: Bytes, o: nat, item: Item) returns (tokens: seq<Spanned>)
    requires item.Leaf? && At(s, o, PrintItem(item))
    ensures Lex(s, o) == Before(tokens, Lex(s, o + |PrintItem(item)|))
    ensures Kinds(tokens) == YieldItem(MisreadItem(item))
  {
    hide At, Lex, Quote, Misread, Before;
    var a, b := Quote(item.key), Quote(item.value);
    AtSplit(s, o, a, [SPACE] + (b + [LF]));
    AtSplit(s, o + |a|, [SPACE], b + [LF]);
    AtSplit(s, o + |a| + 1, b, [LF]);
    TurnReadsQuote(s, o, item.key);
    AtByte(s, o + |a|, [SPACE], 0);
    TurnSkips(s, o + |a|);
    TurnReadsQuote(s, o + |a| + 1, item.value);
    AtByte(s, o + |a| + 1 + |b|, [LF], 0);
    TurnSkips(s, o + |a| + 1 + |b|);
    var x := [Spanned(Text(Misread(item.key)), o)];
    var y := [Spanned(Text(Misread(item.value)), o + |a| + 1)];
    BeforeAll(x, y, Lex(s, o + |a| + 1 + |b| + 1));
    tokens := x + y;
  }

  /** The tokens of a printed node, given those of what is inside. */
  lemma {:induction false} LexNodeEnds(s: Bytes, o: nat, item: Item)
    returns (head: seq<Spanned>, last: seq<Spanned>, inside: nat)
    requires item.Node? && At(s, o, PrintItem(item))
    ensures inside == o + |Quote(item.key)| + 3 && At(s, inside, Print(item.items))
    ensures Lex(s, o) == Before(head, Lex(s, inside))
    ensures Lex(s, inside + |Print(item.items)|) == Before(last, Lex(s, o + |PrintItem(item)|))
    ensures Kinds(head) == [Text(Misread(item.key)), Open] && Kinds(last) == [Close]
  {
    hide At, Lex, Quote, Misread, Before, Print;
    var a, middle, body, end := Quote(item.key), [SPACE, OPEN_BRACE, LF], Print(item.items), [CLOSE_BRACE, LF];
    AtSplit(s, o, a, middle + (body + end));
    AtSplit(s, o + |a|, middle, body + end);
    AtSplit(s, o + |a| + 3, body, end);
    TurnReadsQuote(s, o, item.key);
    var p := o + |a|;
    AtByte(s, p, middle, 0);
    AtByte(s, p, middle, 1);
    AtByte(s, p, middle, 2);
    TurnSkips(s, p);
    TurnReadsBrace(s, p + 1);
    TurnSkips(s, p + 2);
    inside := p + 3;
    var x, y := [Spanned(Text(Misread(item.key)), o)], [Spanned(Open, p + 1)];
    BeforeAll(x, y, Lex(s, inside));
    head := x + y;
    var q := inside + |body|;
    AtByte(s, q, end, 0);
    AtByte(s, q, end, 1);
    TurnReadsBrace(s, q);
    TurnSkips(s, q + 1);
    last := [Spanned(Close, q)];
  }

  lemma {:induction false} LexItem(s: Bytes, o: nat, item: Item) returns (tokens: seq<Spanned>)
    requires At(s, o, PrintItem(item))
    ensures Lex(s, o) == Before(tokens, Lex(s, o + |PrintItem(item)|))
    ensures Kinds(tokens) == YieldItem(MisreadItem(item))
    decreases item
  {
    hide Lex;
    if item.Leaf? {
      tokens := LexLeaf(s, o, item);
    } else {
      var head, last, inside := LexNodeEnds(s, o, item);
      var body := LexPrinted(s, inside, item.items);
      BeforeAll(body, last, Lex(s, o + |PrintItem(item)|));
      BeforeAll(head, body + last, Lex(s, o + |PrintItem(item)|));
      tokens := head + (body + last);
      assert Kinds(tokens) == Kinds(head) + Kinds(body) + Kinds(last);
    }
  }

  /** The tokenizer turns printed pairs into the tokens the grammar derives from them. */
  lemma {:induction false} LexPrinted(s: Bytes, o: nat, items: seq<Item>) returns (tokens: seq<Spanned>)
    requires At(s, o, Print(items))
    ensures Lex(s, o) == Before(tokens, Lex(s, o + |Print(items)|))
    ensures Kinds(tokens) == Yield(MisreadAll(items))
    decreases items
  {
    hide PrintItem, YieldItem;
    hide Lex;
    if items == [] {
      tokens := [];
      BeforeNothing(Lex(s, o));
    } else {
      AtSplit(s, o, PrintItem(items[0]), Print(items[1..]));
      var first := LexItem(s, o, items[0]);
      var rest := LexPrinted(s, o + |PrintItem(items[0])|, items[1..]);
      BeforeAll(first, rest, Lex(s, o + |Print(items)|));
      tokens := first + rest;
      YieldMisread(items);
    }
  }

  lemma {:induction false} BeforeNothing(rest: Lexed)
    ensures Before([], rest) == rest
  {
  }

  lemma {:induction false} YieldMisread(items: seq<Item>)
    requires items != []
    ensures Yield(MisreadAll(items)) == YieldItem(MisreadItem(items[0])) + Yield(MisreadAll(items[1..]))
  {
  }

  lemma {:induction false} MisreadKeepsLevels(items: seq<Item>)
    ensures Levels(MisreadAll(items)) == Levels(items)
  {
    if items != [] {
      assert MisreadAll(items)[1..] == MisreadAll(items[1..]);
      MisreadKeepsLevels(items[1..]);
      if items[0].Node? {
        MisreadKeepsLevels(items[0].items);
      }
    }
  }

  lemma {:induction false} MisreadGrows(t: Bytes)
    ensures |t| <= |Misread(t)|
    ensures Misread(t) == t <==> Ascii(t)
  {
    if t != [] {
      MisreadGrows(t[1..]);
      assert t == [t[0]] + t[1..];
      if t[0] >= 0x80 {
        assert t[0] in t;
        assert |Misread(t)| > |t|;
      } else {
        assert Misread(t) == [t[0]] + Misread(t[1..]);
        assert Misread(t)[1..] == Misread(t[1..]);
        assert forall b :: b in t <==> b == t[0] || b in t[1..];
      }
    }
  }

  lemma {:induction false} MisreadExact(items: seq<Item>)
    ensures MisreadAll(items) == items <==> AsciiItems(items)
  {
    if items != [] {
      var m := MisreadAll(items);
      assert m[0] == MisreadItem(items[0]) && m[1..] == MisreadAll(items[1..]);
      assert items == [items[0]] + items[1..];
      MisreadExact(items[1..]);
      MisreadGrows(items[0].key);
      match items[0]
      case Leaf(_, value) => MisreadGrows(value);
      case Node(_, inside) => MisreadExact(inside);
    }
  }

  // ---- Which trees survive misreading ----

  /** All keys and texts of the tree are ASCII. */
  ghost predicate AsciiTree(v: Kv) {
    match v
    case Str(text) => Ascii(text)
    case Obj(fields) => forall k :: k in fields ==> Ascii(k) && AsciiTree(fields[k])
  }

  lemma {:induction false} MisreadAt(items: seq<Item>)
    ensures |MisreadAll(items)| == |items|
    ensures forall i :: 0 <= i < |items| ==> MisreadAll(items)[i] == MisreadItem(items[i])
  {
    if items != [] {
      MisreadAt(items[1..]);
    }
  }

  /** Misreading text that is not ASCII makes it longer and leaves it not ASCII. */
  lemma {:induction false} MisreadStaysForeign(t: Bytes)
    requires !Ascii(t)
    ensures |Misread(t)| > |t| && !Ascii(Misread(t))
  {
    MisreadGrows(t);
    var b := AsChar(t[0]);
    assert t == [t[0]] + t[1..];
    if t[0] >= 0x80 {
      MisreadGrows(t[1..]);
      assert Misread(t)[0] == b[0] && b[0] in Misread(t);
    } else {
      MisreadStaysForeign(t[1..]);
      var x :| x in Misread(t[1..]) && x >= 0x80;
      assert x in Misread(t);
    }
  }

  lemma {:induction false} MisreadKeys(items: seq<Item>, k: Bytes)
    requires k in Fields(items)
    ensures Misread(k) in Fields(MisreadAll(items))
  {
    MisreadAt(items);
    KeysAreWritten(items, k);
    var i :| 0 <= i < |items| && items[i].key == k;
    assert MisreadAll(items)[i].key == Misread(k);
    KeysAreWritten(MisreadAll(items), Misread(k));
  }

  /** A set of keys closed under misreading has no key that is not ASCII: it would hold ever longer ones. */
  lemma {:induction false} ClosedKeysAreAscii(keys: set<Bytes>, long: set<Bytes>, n: nat)
    requires forall k :: k in keys ==> Misread(k) in keys
    requires forall k :: k in long <==> k in keys && !Ascii(k) && |k| >= n
    ensures long == {}
    decreases |long|
  {
    if k :| k in long {
      var longer := set x | x in long && |x| > |k|;
      assert longer < long by {
        assert k in long && k !in longer;
      }
      SmallerSet(longer, long);
      ClosedKeysAreAscii(keys, longer, Max(n, |k| + 1));
      MisreadStaysForeign(k);
      assert Misread(k) in longer;
    }
  }

  lemma {:induction false} SmallerSet<T>(a: set<T>, b: set<T>)
    requires a < b
    ensures |a| < |b|
  {
    assert b == a + (b - a) && b - a != {};
  }

  lemma {:induction false} SameKeysAreAscii(items: seq<Item>)
    requires Fields(MisreadAll(items)) == Fields(items)
    ensures forall k :: k in Fields(items) ==> Ascii(k)
  {
    var keys := Fields(items).Keys;
    forall k | k in keys
      ensures Misread(k) in keys
    {
      MisreadKeys(items, k);
    }
    ClosedKeysAreAscii(keys, set k | k in keys && !Ascii(k), 0);
  }

  /** Where a key was written last. */
  lemma {:induction false} LastWritten(items: seq<Item>, key: Bytes) returns (i: nat)
    requires key in Fields(items)
    ensures i < |items| && items[i].key == key && forall j :: i < j < |items| ==> items[j].key != key
  {
    var n := |items| - 1;
    if items[n].key == key {
      i := n;
    } else {
      i := LastWritten(items[..n], key);
    }
  }

  /** With ASCII keys both maps are read off the same pairs. */
  lemma {:induction false} SamePair(items: seq<Item>, k: Bytes) returns (i: nat)
    requires k in Fields(items) && forall x :: x in Fields(items) ==> Ascii(x)
    ensures i < |items| && Fields(items)[k] == ValueOf(items[i])
    ensures k in Fields(MisreadAll(items)) && Fields(MisreadAll(items))[k] == ValueOf(MisreadItem(items[i]))
  {
    var m := MisreadAll(items);
    MisreadAt(items);
    i := LastWritten(items, k);
    LastDuplicateWins(items, i);
    forall j | 0 <= j < |items|
      ensures m[j].key == items[j].key
    {
      KeysAreWritten(items, items[j].key);
      MisreadGrows(items[j].key);
    }
    LastDuplicateWins(m, i);
  }

  /** The map read from misread pairs is the original one exactly when that one is all ASCII. */
  lemma {:induction false} TreeMisreadExact(items: seq<Item>)
    ensures Fields(MisreadAll(items)) == Fields(items) <==> AsciiTree(Obj(Fields(items)))
    decreases items
  {
    var fields, read := Fields(items), Fields(MisreadAll(items));
    if read == fields {
      SameKeysAreAscii(items);
    }
    if forall k :: k in fields ==> Ascii(k) {
      forall k | k in fields
        ensures k in read && (read[k] == fields[k] <==> AsciiTree(fields[k]))
      {
        var i := SamePair(items, k);
        ValueMisreadExact(items[i]);
      }
      SameKeys(items);
    }
  }

  lemma {:induction false} SameKeys(items: seq<Item>)
    requires forall k :: k in Fields(items) ==> Ascii(k)
    ensures Fields(MisreadAll(items)).Keys == Fields(items).Keys
  {
    var m := MisreadAll(items);
    MisreadAt(items);
    forall k | k in Fields(m)
      ensures k in Fields(items)
    {
      KeysAreWritten(m, k);
      var i :| 0 <= i < |m| && m[i].key == k;
      KeysAreWritten(items, items[i].key);
      MisreadGrows(items[i].key);
    }
    forall k | k in Fields(items)
      ensures k in Fields(m)
    {
      MisreadKeys(items, k);
      MisreadGrows(k);
    }
  }

  lemma {:induction false} ValueMisreadExact(item: Item)
    ensures ValueOf(MisreadItem(item)) == ValueOf(item) <==> AsciiTree(ValueOf(item))
    decreases item
  {
    match item
    case Leaf(_, value) => MisreadGrows(value);
    case Node(_, items) => TreeMisreadExact(items);
  }

  // ---- Round trips ----

  /**
   * Reading printed pairs within the limits gives back their tree, each text misread byte by byte. What
   * is returned is the printed tree itself if, and only if, that tree is all ASCII; what the parser
   * derives is the printed pairs if, and only if, those are, pairs with an overridden key included.
   */
  lemma {:induction false} PrintedReadsBack(items: seq<Item>)
    requires |Print(items)| <= MAX_VDF_BYTES && Levels(items) <= MAX_DEPTH
    ensures Reading(Print(items)) == Returned(Ok(Obj(Fields(MisreadAll(items)))))
    ensures Reading(Print(items)) == Returned(Ok(Obj(Fields(items)))) <==> AsciiTree(Obj(Fields(items)))
    ensures DerivedFrom(Print(items), items) <==> AsciiItems(items)
  {
    var tokens := LexWhole(items);
    MisreadKeepsLevels(items);
    MisreadExact(items);
    TreeMisreadExact(items);
    GrammarExact(tokens, MisreadAll(items));
  }

  const E_ACUTE: Bytes := [0xC3, 0xA9]
  const KEY: Bytes := [0x6B]

  /** One accented letter comes back as two others. */
  lemma {:induction false} AccentMisread()
    ensures Reading(Print([Leaf(KEY, E_ACUTE)])) == Returned(Ok(Obj(map[KEY := Str([0xC3, 0x83, 0xC2, 0xA9])])))
  {
    hide Reading, Print, MisreadAll, Fields, Misread;
    MisreadTwo(0xC3, 0xA9);
    assert Misread(E_ACUTE) == [0xC3, 0x83, 0xC2, 0xA9];
    MisreadGrows(KEY);
    assert Misread(KEY) == KEY;
    OneLeaf(KEY, E_ACUTE);
    OneLeaf(KEY, Misread(E_ACUTE));
    PrintedSize(KEY, E_ACUTE);
    PrintedReadsBack([Leaf(KEY, E_ACUTE)]);
  }

  lemma {:induction false} OneLeaf(key: Bytes, value: Bytes)
    ensures MisreadAll([Leaf(key, value)]) == [Leaf(Misread(key), Misread(value))]
    ensures Fields([Leaf(key, value)]) == map[key := Str(value)]
    ensures Levels([Leaf(key, value)]) == 0
  {
    var items := [Leaf(key, value)];
    assert items[1..] == [] && items[..0] == [];
  }

  lemma {:induction false} MisreadTwo(a: byte, b: byte)
    ensures Misread([a, b]) == AsChar(a) + AsChar(b)
  {
    assert [a, b][1..] == [b] && [b][1..] == [];
    assert Misread([b]) == AsChar(b) + [] == AsChar(b);
  }

  lemma {:induction false} PrintedSize(key: Bytes, value: Bytes)
    ensures |Print([Leaf(key, value)])| <= 6 + 2 * |key| + 2 * |value|
  {
    EscapedSize(key);
    EscapedSize(value);
    assert [Leaf(key, value)][1..] == [];
  }

  lemma {:induction false} EscapedSize(t: Bytes)
    ensures |Escape(t)| <= 2 * |t|
  {
    if t != [] {
      EscapedSize(t[1..]);
    }
  }

  /** The parser derives exactly this tree from the input. */
  ghost predicate DerivedFrom(input: Bytes, items: seq<Item>) {
    var lexed := Lex(input, 0);
    lexed.Tokens? && ObjectAt(lexed.tokens, 0, 0, false) == Pairs(items, |lexed.tokens|)
  }

  lemma {:induction false} LexWhole(items: seq<Item>) returns (tokens: seq<Spanned>)
    ensures Lex(Print(items), 0) == Tokens(tokens) && Kinds(tokens) == Yield(MisreadAll(items))
  {
    tokens := LexPrinted(Print(items), 0, items);
    assert tokens + [] == tokens;
  }

  /** Objects nested at most `d` deep, all text ASCII. */
  ghost predicate Plain(v: Kv, d: nat) {
    match v
    case Str(text) => Ascii(text)
    case Obj(fields) =>
      forall k :: k in fields ==> Ascii(k) && (fields[k].Obj? ==> d > 0) && Plain(fields[k], if d > 0 then d - 1 else 0)
  }

  /** Some order in which to write the fields named by `keys`. */
  ghost function Listing(v: Kv, keys: set<Bytes>): seq<Item>
    requires v.Obj? && keys <= v.fields.Keys
    decreases v, |keys|
  {
    if keys == {} then []
    else
      var k :| k in keys;
      var value := v.fields[k];
      Listing(v, keys - {k}) + [if value.Str? then Leaf(k, value.text) else Node(k, Listing(value, value.fields.Keys))]
  }

  lemma {:induction false} LevelsAppend(items: seq<Item>, item: Item)
    ensures Levels(items + [item]) == Max(Levels(items), LevelsOf(item))
    ensures AsciiItems(items + [item]) == (AsciiItems(items) && AsciiItem(item))
  {
    if items != [] {
      assert (items + [item])[1..] == items[1..] + [item];
      LevelsAppend(items[1..], item);
    }
  }

  /** The listing has the chosen fields, nests no deeper than the tree, and stays ASCII. */
  ghost predicate Lists(items: seq<Item>, fields: map<Bytes, Kv>, keys: set<Bytes>, d: nat) {
    && Fields(items).Keys == keys <= fields.Keys
    && (forall k :: k in keys ==> Fields(items)[k] == fields[k])
    && Levels(items) <= d && AsciiItems(items)
  }

  lemma {:induction false} ListsAppend(items: seq<Item>, fields: map<Bytes, Kv>, keys: set<Bytes>, d: nat, item: Item)
    requires Lists(items, fields, keys, d)
    requires item.key in fields && ValueOf(item) == fields[item.key] && LevelsOf(item) <= d && AsciiItem(item)
    ensures Lists(items + [item], fields, keys + {item.key}, d)
  {
    FieldsAppend(items, item);
    LevelsAppend(items, item);
  }

  lemma {:induction false} ListingMeans(v: Kv, keys: set<Bytes>, d: nat)
    requires v.Obj? && keys <= v.fields.Keys && Plain(v, d)
    ensures Lists(Listing(v, keys), v.fields, keys, d)
    decreases v, |keys|
  {
    if keys != {} {
      var items := Listing(v, keys);
      var before, last := items[..|items| - 1], items[|items| - 1];
      var k := last.key;
      assert k in keys && before == Listing(v, keys - {k});
      ListingMeans(v, keys - {k}, d);
      var value := v.fields[k];
      if value.Obj? {
        ListingMeans(value, value.fields.Keys, d - 1);
        assert Fields(last.items) == value.fields;
      }
      ListsAppend(before, v.fields, keys - {k}, d, last);
      assert items == before + [last];
      assert keys - {k} + {k} == keys;
    }
  }

  /**
   * Every tree nested at most 32 objects deep: whichever order and whichever repeated keys a listing of
   * it uses, reading its printed form gives the tree back if, and only if, the tree is all ASCII; and
   * every ASCII tree has such a listing.
   */
  lemma {:induction false} TreesReadBack(fields: map<Bytes, Kv>)
    ensures forall items :: ListingOf(items, fields) ==>
              (Reading(Print(items)) == Returned(Ok(Obj(fields))) <==> AsciiTree(Obj(fields)))
    ensures Plain(Obj(fields), MAX_DEPTH) ==>
              && AsciiTree(Obj(fields))
              && exists items :: Fields(items) == fields && AsciiItems(items) && Levels(items) <= MAX_DEPTH
  {
    forall items | ListingOf(items, fields)
      ensures Reading(Print(items)) == Returned(Ok(Obj(fields))) <==> AsciiTree(Obj(fields))
    {
      PrintedReadsBack(items);
    }
    if Plain(Obj(fields), MAX_DEPTH) {
      PlainIsAscii(Obj(fields), MAX_DEPTH);
      ListingMeans(Obj(fields), fields.Keys, MAX_DEPTH);
      assert Fields(Listing(Obj(fields), fields.Keys)) == fields;
    }
  }

  lemma {:induction false} PlainIsAscii(v: Kv, d: nat)
    requires Plain(v, d)
    ensures AsciiTree(v)
    decreases v
  {
    if v.Obj? {
      forall k | k in v.fields
        ensures Ascii(k) && AsciiTree(v.fields[k])
      {
        PlainIsAscii(v.fields[k], if d > 0 then d - 1 else 0);
      }
    }
  }

  /** A writing of the tree that fits the reader's limits. */
  ghost predicate ListingOf(items: seq<Item>, fields: map<Bytes, Kv>) {
    Fields(items) == fields && Levels(items) <= MAX_DEPTH && |Print(items)| <= MAX_VDF_BYTES
  }
}
