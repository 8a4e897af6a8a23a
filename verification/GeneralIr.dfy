/**
 * The `general` block of the scene IR and its re-emission (crates/kwe-core/src/ir.rs).
 *
 * Floating point is left abstract: a JSON number is its exact value, and `Floats` says how values
 * round to 32 bits (`None` is an infinity) and how text reads as numbers (the inner `None` is an
 * infinity or not a number).
 */
module GeneralIrs {
  import opened Common

  datatype Json =
    | JNull
    | JBool(b: bool)
    | JNumber(value: real)
    | JString(text: string)
    | JArray(items: seq<Json>)
    | JObject(fields: map<string, Json>)

  type Num = Option<real>

  datatype Floats = Floats(
    round: real -> Num,
    parse: string -> Option<Num>,
    parseTrimmed: string -> Option<Num>,
    words: string -> seq<string>)

  /** Rounding keeps what is already rounded, and is exact on 0 and 1. */
  ghost predicate Sane(f: Floats) {
    && (forall x: real :: f.round(x).Some? ==> f.round(f.round(x).value) == f.round(x))
    && f.round(0.0) == Some(0.0) && f.round(1.0) == Some(1.0)
  }

  lemma {:induction false} RoundTwice(f: Floats, x: real)
    requires Sane(f) && f.round(x).Some?
    ensures f.round(f.round(x).value) == f.round(x)
  {
  }

  const CLEAR_COLOR := "clearcolor"
  const RESOLUTION := "resolution"
  const ORTHOGONAL_PROJECTION := "orthogonalprojection"
  const FPS := "fps"
  const SCRIPT := "script"
  const DEFAULT_COLOR: seq<Num> := [Some(0.0), Some(0.0), Some(0.0), Some(1.0)]

  /** `as_number`: a number, or text that reads as one. */
  function AsNumber(f: Floats, v: Json): Option<Num> {
    match v
    case JNumber(x) => Some(Some(x))
    case JString(s) => f.parseTrimmed(s)
    case _ => None
  }

  function RoundNum(f: Floats, n: Num): Num {
    if n.Some? then f.round(n.value) else None
  }

  function AllNumbers(f: Floats, items: seq<Json>): (r: Option<seq<Num>>)
    ensures r.Some? ==> |r.value| == |items|
  {
    if items == [] then Some([])
    else
      var first, rest := AsNumber(f, items[0]), AllNumbers(f, items[1..]);
      if first.None? || rest.None? then None else Some([first.value] + rest.value)
  }

  function AllParsed(f: Floats, words: seq<string>): (r: Option<seq<Num>>)
    ensures r.Some? ==> |r.value| == |words|
  {
    if words == [] then Some([])
    else
      var first, rest := f.parse(words[0]), AllParsed(f, words[1..]);
      if first.None? || rest.None? then None else Some([first.value] + rest.value)
  }

  function RoundAll(f: Floats, ns: seq<Num>): (r: seq<Num>)
    ensures |r| == |ns| && forall i :: 0 <= i < |r| ==> r[i] == RoundNum(f, ns[i])
  {
    seq(|ns|, i requires 0 <= i < |ns| => RoundNum(f, ns[i]))
  }

  /** `as_vector`: an array or spaced text of numbers, of the one allowed length, rounded to 32 bits. */
  function AsVector(f: Floats, v: Json, length: nat): (r: Option<seq<Num>>)
    ensures r.Some? ==> |r.value| == length
  {
    var components :=
      match v
      case JArray(items) => AllNumbers(f, items)
      case JString(s) => AllParsed(f, f.words(s))
      case _ => None;
    if components.Some? && |components.value| == length then Some(RoundAll(f, components.value)) else None
  }

  /** `as u32` of a positive number. */
  function ToU32(x: real): u32
    requires x > 0.0
  {
    if x >= 4294967296.0 then U32_MAX else x.Floor
  }

  function Positive(n: Num): bool {
    n.Some? && n.value > 0.0
  }

  function ParseClearColor(f: Floats, v: Json): (r: Option<seq<Num>>)
    ensures r.Some? ==> |r.value| == 4
  {
    match v
    case JArray(_) => AsVector(f, v, 4)
    case JString(s) =>
      var tokens := AllParsed(f, f.words(s));
      if tokens.Some? && |tokens.value| == 3 then Some(RoundAll(f, tokens.value) + [Some(1.0)]) else None
    case _ => None
  }

  function ParseResolution(f: Floats, v: Json): Option<(u32, u32)> {
    var c := AsVector(f, v, 2);
    if c.Some? && Positive(c.value[0]) && Positive(c.value[1])
    then Some((ToU32(c.value[0].value), ToU32(c.value[1].value))) else None
  }

  function Dimension(f: Floats, fields: map<string, Json>, key: string): Option<u32> {
    if key !in fields then None
    else
      var n := AsNumber(f, fields[key]);
      if n.Some? && Positive(n.value) then Some(ToU32(n.value.value)) else None
  }

  function ParseProjection(f: Floats, v: Json): Option<(u32, u32)> {
    if !v.JObject? then None
    else
      var w, h := Dimension(f, v.fields, "width"), Dimension(f, v.fields, "height");
      if w.Some? && h.Some? then Some((w.value, h.value)) else None
  }

  /** The winning key of an alias pair. */
  function AliasWinner(general: map<string, Json>, winner: string, loser: string): (r: Option<string>)
    ensures r.Some? ==> r.value in general && (r.value == winner || (r.value == loser && winner !in general))
    ensures r.None? <==> winner !in general && loser !in general
  {
    if winner in general then Some(winner) else if loser in general then Some(loser) else None
  }

  function CollectUnknown(general: map<string, Json>, consumed: set<string>): map<string, Json> {
    general - consumed
  }

  datatype GeneralIr = GeneralIr(
    clearColor: seq<Num>,
    resolution: Option<(u32, u32)>,
    fps: Option<Num>,
    script: Option<string>,
    unknown: map<string, Json>)

  /** A field's value if its raw value fits; only then is its key consumed. */
  function ReadColor(f: Floats, general: map<string, Json>): Option<seq<Num>> {
    if CLEAR_COLOR in general then ParseClearColor(f, general[CLEAR_COLOR]) else None
  }

  function ReadResolution(f: Floats, general: map<string, Json>): (r: Option<(string, (u32, u32))>)
    ensures r.Some? ==> r.value.0 in general
    ensures r.Some? ==> r.value.0 == RESOLUTION || (r.value.0 == ORTHOGONAL_PROJECTION && RESOLUTION !in general)
  {
    var winner := AliasWinner(general, RESOLUTION, ORTHOGONAL_PROJECTION);
    if winner.None? then None
    else
      var value := if winner.value == RESOLUTION then ParseResolution(f, general[winner.value])
                   else ParseProjection(f, general[winner.value]);
      if value.Some? then Some((winner.value, value.value)) else None
  }

  /** The number must be finite before rounding; rounding may still overflow. */
  function ReadFps(f: Floats, general: map<string, Json>): Option<Num> {
    if FPS !in general then None
    else
      var n := AsNumber(f, general[FPS]);
      if n.Some? && n.value.Some? then Some(f.round(n.value.value)) else None
  }

  function ReadScript(general: map<string, Json>): Option<string> {
    if SCRIPT in general && general[SCRIPT].JString? then Some(general[SCRIPT].text) else None
  }

  function Consumed(f: Floats, general: map<string, Json>): set<string> {
    (if ReadColor(f, general).Some? then {CLEAR_COLOR} else {})
    + (if ReadResolution(f, general).Some? then {ReadResolution(f, general).value.0} else {})
    + (if ReadFps(f, general).Some? then {FPS} else {})
    + (if ReadScript(general).Some? then {SCRIPT} else {})
  }

  function ParsedGeneral(f: Floats, general: map<string, Json>): GeneralIr {
    GeneralIr(
      if ReadColor(f, general).Some? then ReadColor(f, general).value else DEFAULT_COLOR,
      if ReadResolution(f, general).Some? then Some(ReadResolution(f, general).value.1) else None,
      ReadFps(f, general),
      ReadScript(general),
      CollectUnknown(general, Consumed(f, general)))
  }

  /** The parser, which marks keys consumed as it goes. */
  method ParseGeneralIr(f: Floats, general: map<string, Json>) returns (r: GeneralIr)
    ensures r == ParsedGeneral(f, general)
  {
    hide ReadColor, ReadResolution, ReadFps, ReadScript, CollectUnknown;
    var consumed: set<string> := {};
    var color := DEFAULT_COLOR;
    var readColor := ReadColor(f, general);
    if readColor.Some? {
      consumed := consumed + {CLEAR_COLOR};
      color := readColor.value;
    }
    var resolution: Option<(u32, u32)> := None;
    var readResolution := ReadResolution(f, general);
    if readResolution.Some? {
      consumed := consumed + {readResolution.value.0};
      resolution := Some(readResolution.value.1);
    }
    var fps := ReadFps(f, general);
    if fps.Some? {
      consumed := consumed + {FPS};
    }
    var script := ReadScript(general);
    if script.Some? {
      consumed := consumed + {SCRIPT};
    }
    assert consumed == Consumed(f, general);
    return GeneralIr(color, resolution, fps, script, CollectUnknown(general, consumed));
  }

  // ---- Re-emission ----

  /** A non-finite number is written as null. */
  function EmitNum(n: Num): Json {
    if n.Some? then JNumber(n.value) else JNull
  }

  function EmitAll(ns: seq<Num>): (r: seq<Json>)
    ensures |r| == |ns| && forall i :: 0 <= i < |r| ==> r[i] == EmitNum(ns[i])
  {
    seq(|ns|, i requires 0 <= i < |ns| => EmitNum(ns[i]))
  }

  /** Typed fields first; unknown entries are written over them. */
  function ToRawValue(g: GeneralIr): map<string, Json> {
    map[CLEAR_COLOR := JArray(EmitAll(g.clearColor))]
    + (if g.resolution.Some?
       then map[RESOLUTION := JArray([JNumber(g.resolution.value.0 as real), JNumber(g.resolution.value.1 as real)])]
       else map[])
    + (if g.fps.Some? then map[FPS := EmitNum(g.fps.value)] else map[])
    + (if g.script.Some? then map[SCRIPT := JString(g.script.value)] else map[])
    + g.unknown
  }

  // ---- Round trip ----

  ghost predicate AllFinite(ns: seq<Num>) {
    forall i :: 0 <= i < |ns| ==> ns[i].Some?
  }

  /** A dimension survives when 32 bits of float can hold it exactly enough to truncate back to it. */
  predicate Survives(f: Floats, n: u32) {
    n >= 1 && Positive(f.round(n as real)) && ToU32(f.round(n as real).value) == n
  }

  /** Finite colours and frame rate, and dimensions that survive. */
  ghost predicate Reemittable(f: Floats, g: GeneralIr) {
    && AllFinite(g.clearColor)
    && (g.fps.Some? ==> g.fps.value.Some?)
    && (g.resolution.Some? ==> Survives(f, g.resolution.value.0) && Survives(f, g.resolution.value.1))
  }

  lemma {:induction false} EmittedNumbers(f: Floats, ns: seq<Num>)
    ensures AllNumbers(f, EmitAll(ns)) == if AllFinite(ns) then Some(ns) else None
  {
    if ns != [] {
      EmittedNumbers(f, ns[1..]);
      assert EmitAll(ns)[1..] == EmitAll(ns[1..]);
      assert ns == [ns[0]] + ns[1..];
      assert AllFinite(ns) <==> ns[0].Some? && AllFinite(ns[1..]);
    }
  }

  ghost predicate Rounded(f: Floats, ns: seq<Num>) {
    forall i :: 0 <= i < |ns| ==> ns[i].Some? ==> f.round(ns[i].value) == ns[i]
  }

  lemma {:induction false} RoundAllRounded(f: Floats, ns: seq<Num>)
    requires Sane(f)
    ensures Rounded(f, RoundAll(f, ns))
  {
    var r := RoundAll(f, ns);
    forall i | 0 <= i < |r| && r[i].Some?
      ensures f.round(r[i].value) == r[i]
    {
      assert r[i] == RoundNum(f, ns[i]);
      RoundTwice(f, ns[i].value);
    }
  }

  lemma {:induction false} ColorIsRounded(f: Floats, general: map<string, Json>)
    requires Sane(f)
    ensures |ParsedGeneral(f, general).clearColor| == 4 && Rounded(f, ParsedGeneral(f, general).clearColor)
  {
    if ReadColor(f, general).Some? {
      var v := general[CLEAR_COLOR];
      if v.JArray? {
        RoundAllRounded(f, AllNumbers(f, v.items).value);
      } else {
        RoundAllRounded(f, AllParsed(f, f.words(v.text)).value);
      }
    }
  }

  /** A colour is read back from its emission exactly when all its components are finite. */
  lemma {:induction false} ColorReadsBack(f: Floats, ns: seq<Num>)
    requires Sane(f) && |ns| == 4 && Rounded(f, ns)
    ensures ParseClearColor(f, JArray(EmitAll(ns))) == if AllFinite(ns) then Some(ns) else None
  {
    EmittedNumbers(f, ns);
    if AllFinite(ns) {
      assert RoundAll(f, ns) == ns;
    }
  }

  lemma {:induction false} ResolutionReadsBack(f: Floats, w: u32, h: u32)
    requires Sane(f)
    ensures ParseResolution(f, JArray([JNumber(w as real), JNumber(h as real)])) == Some((w, h)) <==>
            Survives(f, w) && Survives(f, h)
  {
    var ns: seq<Num> := [Some(w as real), Some(h as real)];
    assert EmitAll(ns) == [JNumber(w as real), JNumber(h as real)];
    EmittedNumbers(f, ns);
  }

  // Where each key of the re-emitted block comes from.

  /** What a block has under a key, if anything. */
  function Entry(m: map<string, Json>, key: string): Option<Json> {
    if key in m then Some(m[key]) else None
  }

  lemma {:induction false} UnknownEntry(f: Floats, general: map<string, Json>, key: string)
    ensures Entry(ParsedGeneral(f, general).unknown, key)
            == if key in Consumed(f, general) then None else Entry(general, key)
  {
  }

  lemma {:induction false} ConsumedKeys(f: Floats, general: map<string, Json>, key: string)
    ensures key in Consumed(f, general) <==>
            || (key == CLEAR_COLOR && ReadColor(f, general).Some?)
            || (ReadResolution(f, general).Some? && key == ReadResolution(f, general).value.0)
            || (key == FPS && ReadFps(f, general).Some?)
            || (key == SCRIPT && ReadScript(general).Some?)
  {
  }

  /** What the typed fields write under a key. */
  function TypedEntry(g: GeneralIr, key: string): Option<Json> {
    if key == CLEAR_COLOR then Some(JArray(EmitAll(g.clearColor)))
    else if key == RESOLUTION && g.resolution.Some? then
      Some(JArray([JNumber(g.resolution.value.0 as real), JNumber(g.resolution.value.1 as real)]))
    else if key == FPS && g.fps.Some? then Some(EmitNum(g.fps.value))
    else if key == SCRIPT && g.script.Some? then Some(JString(g.script.value))
    else None
  }

  lemma {:induction false} RawEntry(g: GeneralIr, key: string)
    ensures Entry(ToRawValue(g), key) == if key in g.unknown then Some(g.unknown[key]) else TypedEntry(g, key)
  {
    hide EmitAll, EmitNum;
  }

  /** A key that was not consumed is written back as it was; any other as its typed field says. */
  lemma {:induction false} EmittedEntry(f: Floats, general: map<string, Json>, key: string)
    ensures Entry(ToRawValue(ParsedGeneral(f, general)), key) ==
            if key in general && key !in Consumed(f, general) then Some(general[key])
            else TypedEntry(ParsedGeneral(f, general), key)
  {
    hide ToRawValue, TypedEntry, ParsedGeneral, Consumed;
    RawEntry(ParsedGeneral(f, general), key);
    UnknownEntry(f, general, key);
  }

  lemma {:induction false} EmittedColor(f: Floats, general: map<string, Json>)
    ensures var g, raw := ParsedGeneral(f, general), ToRawValue(ParsedGeneral(f, general));
            && CLEAR_COLOR in raw
            && raw[CLEAR_COLOR] == if CLEAR_COLOR in general && ReadColor(f, general).None? then general[CLEAR_COLOR]
                                   else JArray(EmitAll(g.clearColor))
  {
    hide ToRawValue, Consumed, ReadColor, ReadResolution, ReadFps, ReadScript;
    EmittedEntry(f, general, CLEAR_COLOR);
    ConsumedKeys(f, general, CLEAR_COLOR);
  }

  lemma {:induction false} EmittedResolution(f: Floats, general: map<string, Json>)
    ensures var g, raw := ParsedGeneral(f, general), ToRawValue(ParsedGeneral(f, general));
            if g.resolution.Some? then
              RESOLUTION in raw &&
              raw[RESOLUTION] == JArray([JNumber(g.resolution.value.0 as real), JNumber(g.resolution.value.1 as real)])
            else Same(raw, general, RESOLUTION) && Same(raw, general, ORTHOGONAL_PROJECTION)
  {
    hide ToRawValue, Consumed, ReadColor, ReadResolution, ReadFps, ReadScript;
    EmittedEntry(f, general, RESOLUTION);
    EmittedEntry(f, general, ORTHOGONAL_PROJECTION);
    ConsumedKeys(f, general, RESOLUTION);
    ConsumedKeys(f, general, ORTHOGONAL_PROJECTION);
  }

  lemma {:induction false} EmittedFps(f: Floats, general: map<string, Json>)
    ensures var g, raw := ParsedGeneral(f, general), ToRawValue(ParsedGeneral(f, general));
            if g.fps.Some? then FPS in raw && raw[FPS] == EmitNum(g.fps.value) else Same(raw, general, FPS)
  {
    hide ToRawValue, Consumed, ReadColor, ReadResolution, ReadFps, ReadScript;
    EmittedEntry(f, general, FPS);
    ConsumedKeys(f, general, FPS);
  }

  lemma {:induction false} EmittedScript(f: Floats, general: map<string, Json>)
    ensures var g, raw := ParsedGeneral(f, general), ToRawValue(ParsedGeneral(f, general));
            if g.script.Some? then SCRIPT in raw && raw[SCRIPT] == JString(g.script.value)
            else Same(raw, general, SCRIPT)
  {
    hide ToRawValue, Consumed, ReadColor, ReadResolution, ReadFps, ReadScript;
    EmittedEntry(f, general, SCRIPT);
    ConsumedKeys(f, general, SCRIPT);
  }

  predicate Same(a: map<string, Json>, b: map<string, Json>, key: string) {
    Entry(a, key) == Entry(b, key)
  }

  // Field by field, what is read back.

  lemma {:induction false} ColorAgain(f: Floats, general: map<string, Json>)
    requires Sane(f)
    ensures var g, raw := ParsedGeneral(f, general), ToRawValue(ParsedGeneral(f, general));
            if CLEAR_COLOR in general && ReadColor(f, general).None? then ReadColor(f, raw).None?
            else ReadColor(f, raw) == if AllFinite(g.clearColor) then Some(g.clearColor) else None
  {
    hide ParsedGeneral, ToRawValue, ParseClearColor;
    EmittedColor(f, general);
    ColorIsRounded(f, general);
    ColorReadsBack(f, ParsedGeneral(f, general).clearColor);
  }

  lemma {:induction false} ResolutionAgain(f: Floats, general: map<string, Json>)
    requires Sane(f)
    ensures var g, raw := ParsedGeneral(f, general), ToRawValue(ParsedGeneral(f, general));
            if g.resolution.None? then ReadResolution(f, raw).None?
            else ReadResolution(f, raw) == Some((RESOLUTION, g.resolution.value)) <==>
                 Survives(f, g.resolution.value.0) && Survives(f, g.resolution.value.1)
  {
    hide ToRawValue, ParseResolution, ParseProjection;
    var g := ParsedGeneral(f, general);
    EmittedResolution(f, general);
    if g.resolution.Some? {
      ResolutionReadsBack(f, g.resolution.value.0, g.resolution.value.1);
    }
  }

  lemma {:induction false} FpsAgain(f: Floats, general: map<string, Json>)
    requires Sane(f)
    ensures var g, raw := ParsedGeneral(f, general), ToRawValue(ParsedGeneral(f, general));
            ReadFps(f, raw) == if g.fps.Some? && g.fps.value.None? then None else g.fps
  {
    hide ToRawValue;
    EmittedFps(f, general);
    var fps := ReadFps(f, general);
    if fps.Some? && fps.value.Some? {
      RoundTwice(f, AsNumber(f, general[FPS]).value.value);
    }
  }

  lemma {:induction false} ScriptAgain(f: Floats, general: map<string, Json>)
    ensures var g, raw := ParsedGeneral(f, general), ToRawValue(ParsedGeneral(f, general));
            ReadScript(raw) == g.script
  {
    hide ToRawValue;
    EmittedScript(f, general);
  }

  lemma {:induction false} UnknownAgain(f: Floats, general: map<string, Json>, key: string)
    requires Sane(f) && Reemittable(f, ParsedGeneral(f, general))
    ensures var g, raw := ParsedGeneral(f, general), ToRawValue(ParsedGeneral(f, general));
            Entry(ParsedGeneral(f, raw).unknown, key) == Entry(g.unknown, key)
  {
    hide ToRawValue, Consumed, Sane, Survives, ReadColor, ReadResolution, ReadFps, ReadScript;
    var raw := ToRawValue(ParsedGeneral(f, general));
    UnknownEntry(f, general, key);
    UnknownEntry(f, raw, key);
    ConsumedKeys(f, general, key);
    ConsumedKeys(f, raw, key);
    EmittedEntry(f, general, key);
    ColorAgain(f, general);
    ResolutionAgain(f, general);
    FpsAgain(f, general);
    ScriptAgain(f, general);
  }

  /**
   * Parsing a re-emitted general block gives back the same block, shadowed aliases and malformed values
   * included, exactly when its colour and frame rate are finite and its dimensions survive 32-bit floats.
   */
  lemma {:induction false} GeneralRoundTripExact(f: Floats, general: map<string, Json>)
    requires Sane(f)
    ensures var g := ParsedGeneral(f, general);
            ParsedGeneral(f, ToRawValue(g)) == g <==> Reemittable(f, g)
  {
    hide ToRawValue, ReadColor, ReadFps, ReadScript, Sane;
    var g, raw := ParsedGeneral(f, general), ToRawValue(ParsedGeneral(f, general));
    ColorAgain(f, general);
    ResolutionAgain(f, general);
    FpsAgain(f, general);
    ScriptAgain(f, general);
    EmittedResolution(f, general);
    if Reemittable(f, g) {
      forall key
        ensures Entry(ParsedGeneral(f, raw).unknown, key) == Entry(g.unknown, key)
      {
        UnknownAgain(f, general, key);
      }
      SameEntries(ParsedGeneral(f, raw).unknown, g.unknown);
    }
  }

  lemma {:induction false} SameEntries(a: map<string, Json>, b: map<string, Json>)
    requires forall key :: Entry(a, key) == Entry(b, key)
    ensures a == b
  {
    forall key
      ensures key in a <==> key in b
      ensures key in a ==> a[key] == b[key]
    {
      assert Entry(a, key) == Entry(b, key);
    }
  }

  /** Where 32-bit floats are exact, a dimension survives unless truncation made it zero. */
  lemma {:induction false} ExactDimensions(f: Floats, n: u32)
    requires f.round(n as real) == Some(n as real)
    ensures Survives(f, n) <==> n >= 1
  {
  }

  /** Half a pixel each way is read as no pixels, which are written but not read back. */
  lemma {:induction false} HalfPixelLost(f: Floats)
    requires Sane(f) && f.round(0.5) == Some(0.5)
    ensures var general := map[RESOLUTION := JArray([JNumber(0.5), JNumber(0.5)])];
            var g := ParsedGeneral(f, general);
            g.resolution == Some((0, 0)) && ParsedGeneral(f, ToRawValue(g)) != g
  {
    var general := map[RESOLUTION := JArray([JNumber(0.5), JNumber(0.5)])];
    hide ToRawValue, ReadColor, ReadFps, ReadScript, Sane, CollectUnknown, Consumed;
    var half: seq<Num> := [Some(0.5), Some(0.5)];
    assert EmitAll(half) == [JNumber(0.5), JNumber(0.5)];
    EmittedNumbers(f, half);
    assert RoundAll(f, half) == half;
    assert ParseResolution(f, general[RESOLUTION]) == Some((0, 0));
    assert ReadResolution(f, general) == Some((RESOLUTION, (0, 0)));
    GeneralRoundTripExact(f, general);
  }

  // ---- Single values ----

  /** A positive number is cut down to a whole one, and held at the largest of 32 bits. */
  lemma {:induction false} ToU32Exact(x: real)
    requires x > 0.0
    ensures if x >= 4294967296.0 then ToU32(x) == 4294967295
            else ToU32(x) as real <= x < ToU32(x) as real + 1.0
  {
  }

  /** Width and height of an orthogonal projection, each from its own key and cut down without rounding. */
  lemma {:induction false} ProjectionExact(f: Floats, fields: map<string, Json>, w: u32, h: u32)
    ensures ParseProjection(f, JObject(fields)) == Some((w, h)) <==>
            && "width" in fields && Whole(f, fields["width"], w)
            && "height" in fields && Whole(f, fields["height"], h)
  {
  }

  /** The value is a positive number, or text of one, that is cut down to `n`. */
  predicate Whole(f: Floats, v: Json, n: u32) {
    match v
    case JNumber(x) => x > 0.0 && ToU32(x) == n
    case JString(t) =>
      var x := f.parseTrimmed(t);
      x.Some? && x.value.Some? && x.value.value > 0.0 && ToU32(x.value.value) == n
    case _ => false
  }

  /** A frame rate is a finite number, or text of one, rounded to 32 bits. */
  lemma {:induction false} FpsExact(f: Floats, general: map<string, Json>)
    requires "fps" in general
    ensures ReadFps(f, general) ==
            match general["fps"]
            case JNumber(x) => Some(f.round(x))
            case JString(t) =>
              var x := f.parseTrimmed(t);
              if x.Some? && x.value.Some? then Some(f.round(x.value.value)) else None
            case _ => None
  {
  }

  lemma {:induction false} AllParsedExact(f: Floats, words: seq<string>)
    ensures AllParsed(f, words).Some? <==> forall k :: 0 <= k < |words| ==> f.parse(words[k]).Some?
    ensures AllParsed(f, words).Some? ==>
              forall k :: 0 <= k < |words| ==> Some(AllParsed(f, words).value[k]) == f.parse(words[k])
  {
    if words != [] {
      AllParsedExact(f, words[1..]);
    }
  }

  lemma {:induction false} AllNumbersExact(f: Floats, items: seq<Json>)
    ensures AllNumbers(f, items).Some? <==> forall k :: 0 <= k < |items| ==> AsNumber(f, items[k]).Some?
    ensures AllNumbers(f, items).Some? ==>
              forall k :: 0 <= k < |items| ==> Some(AllNumbers(f, items).value[k]) == AsNumber(f, items[k])
  {
    hide AsNumber;
    if items != [] {
      AllNumbersExact(f, items[1..]);
    }
  }

  /** A colour in text has three components, each read and rounded in its place, and full opacity. */
  lemma {:induction false} ColorTextExact(f: Floats, text: string)
    ensures var words, color := f.words(text), ParseClearColor(f, JString(text));
            && (color.Some? <==> |words| == 3 && forall k :: 0 <= k < 3 ==> f.parse(words[k]).Some?)
            && (color.Some? ==> color.value[3] == Some(1.0))
            && (color.Some? ==> forall k :: 0 <= k < 3 ==> color.value[k] == RoundNum(f, f.parse(words[k]).value))
  {
    hide AllParsed;
    AllParsedExact(f, f.words(text));
  }

  /** A colour in an array has four components, each read and rounded in its place. */
  lemma {:induction false} ColorArrayExact(f: Floats, items: seq<Json>)
    ensures var color := ParseClearColor(f, JArray(items));
            && (color.Some? <==> |items| == 4 && forall k :: 0 <= k < 4 ==> AsNumber(f, items[k]).Some?)
            && (color.Some? ==> forall k :: 0 <= k < 4 ==> color.value[k] == RoundNum(f, AsNumber(f, items[k]).value))
  {
    hide AllNumbers, AsNumber;
    AllNumbersExact(f, items);
  }
}
