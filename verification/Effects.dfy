/**
 * Effect chains of scene objects (crates/kwe-core/src/sceneeffect.rs). JSON is taken as far as the
 * resolver looks at it; reading files and their JSON is a parameter.
 */
module Effects {
  import opened Common

  const MAX_EFFECT_JSON_BYTES := 1024 * 1024
  const MAX_EFFECTS_PER_OBJECT := 32
  const MAX_PASSES_PER_EFFECT := 16
  const MAX_FBOS_PER_EFFECT := 16
  const MAX_MATERIAL_TEXTURES := 8
  const MAX_SINGLE_TEXTURE_BUDGET_BYTES := 256 * 1024 * 1024

  // ---- Names by index ----

  /** The `index` field of an object. */
  datatype IndexField = Absent | NotIndex | Index(n: nat)

  datatype Value = Plain(text: string) | Fields(index: IndexField, name: Option<string>) | Other

  datatype Names = NoNames | Keyed(byKey: seq<(string, Value)>) | Listed(values: seq<Value>)

  function NonEmpty(name: Option<string>): Option<string> {
    if name.Some? && name.value != "" then name else None
  }

  function NameOf(v: Value): Option<string> {
    match v
    case Plain(text) => NonEmpty(Some(text))
    case Fields(_, name) => NonEmpty(name)
    case Other => None
  }

  /** One entry's claim to a texture slot. */
  type Claim = Option<(nat, string)>

  function ClaimOn(index: Option<nat>, name: Option<string>): (c: Claim)
    ensures c.Some? ==> c.value.0 < MAX_MATERIAL_TEXTURES
  {
    if index.Some? && index.value < MAX_MATERIAL_TEXTURES && name.Some? then Some((index.value, name.value)) else None
  }

  predicate BindShaped(values: seq<Value>) {
    exists v :: v in values && v.Fields? && !v.index.Absent?
  }

  function Capped(n: nat, cap: nat): nat {
    if n <= cap then n else cap
  }

  function KeyClaim(readIndex: string -> Option<nat>, e: (string, Value)): Claim {
    ClaimOn(readIndex(e.0), NameOf(e.1))
  }

  function BindClaim(v: Value): Claim {
    if v.Fields? && v.index.Index? then ClaimOn(Some(v.index.n), NonEmpty(v.name)) else None
  }

  function PlaceClaim(place: nat, v: Value): Claim {
    ClaimOn(Some(place), NameOf(v))
  }

  function Positional(values: seq<Value>): seq<Claim> {
    seq(Capped(|values|, MAX_MATERIAL_TEXTURES),
        i requires 0 <= i < Capped(|values|, MAX_MATERIAL_TEXTURES) => PlaceClaim(i, values[i]))
  }

  /** The claims counted, in order; each shape has its own way to say which slot and its own cap. */
  function ClaimsOf(readIndex: string -> Option<nat>, names: Names): seq<Claim> {
    match names
    case NoNames => []
    case Keyed(byKey) =>
      seq(Capped(|byKey|, 4 * MAX_MATERIAL_TEXTURES),
          i requires 0 <= i < Capped(|byKey|, 4 * MAX_MATERIAL_TEXTURES) => KeyClaim(readIndex, byKey[i]))
    case Listed(values) =>
      if BindShaped(values) then
        seq(Capped(|values|, 4 * MAX_MATERIAL_TEXTURES),
            i requires 0 <= i < Capped(|values|, 4 * MAX_MATERIAL_TEXTURES) => BindClaim(values[i]))
      else Positional(values)
  }

  /** Some entry `i` claims the slot and none after it does. */
  ghost predicate LastClaim(claims: seq<Claim>, slot: nat, i: nat) {
    i < |claims| && claims[i].Some? && claims[i].value.0 == slot
    && forall j :: i < j < |claims| ==> claims[j].None? || claims[j].value.0 != slot
  }

  function Named(claims: seq<Claim>): map<nat, string> {
    if claims == [] then map[]
    else
      var before, last := Named(claims[..|claims| - 1]), claims[|claims| - 1];
      if last.Some? then before[last.value.0 := last.value.1] else before
  }

  /** A slot has a name exactly when some entry claims it, and then the last such entry's. */
  lemma {:induction false} NamedExact(claims: seq<Claim>, slot: nat)
    ensures slot in Named(claims) <==> exists i: nat :: LastClaim(claims, slot, i)
    ensures forall i: nat :: LastClaim(claims, slot, i) ==>
              slot in Named(claims) && Named(claims)[slot] == claims[i].value.1
  {
    if claims != [] {
      var n := |claims| - 1;
      var before, last := claims[..n], claims[n];
      NamedExact(before, slot);
      if last.Some? && last.value.0 == slot {
        assert LastClaim(claims, slot, n);
      } else {
        forall i: nat
          ensures LastClaim(claims, slot, i) <==> LastClaim(before, slot, i)
        {
          if LastClaim(before, slot, i) {
            assert forall j :: i < j < n ==> claims[j] == before[j];
          }
          if LastClaim(claims, slot, i) {
            assert forall j :: i < j < n ==> before[j] == claims[j];
          }
        }
      }
    }
  }

  method ParseIndexNames(readIndex: string -> Option<nat>, names: Names) returns (out: map<nat, string>)
    ensures out == Named(ClaimsOf(readIndex, names))
  {
    ghost var claims := ClaimsOf(readIndex, names);
    out := map[];
    match names {
      case NoNames =>
      case Keyed(byKey) =>
        for i := 0 to Capped(|byKey|, 4 * MAX_MATERIAL_TEXTURES)
          invariant out == Named(claims[..i])
        {
          out := Insert(out, claims, i, KeyClaim(readIndex, byKey[i]));
        }
      case Listed(values) =>
        if BindShaped(values) {
          for i := 0 to Capped(|values|, 4 * MAX_MATERIAL_TEXTURES)
            invariant out == Named(claims[..i])
          {
            out := Insert(out, claims, i, BindClaim(values[i]));
          }
        } else {
          for i := 0 to Capped(|values|, MAX_MATERIAL_TEXTURES)
            invariant out == Named(claims[..i])
          {
            out := Insert(out, claims, i, PlaceClaim(i, values[i]));
          }
        }
    }
    assert claims[..|claims|] == claims;
  }

  /** One turn of each loop: the entry is skipped or inserted over what was there. */
  method Insert(out: map<nat, string>, ghost claims: seq<Claim>, ghost i: nat, claim: Claim)
    returns (r: map<nat, string>)
    requires i < |claims| && claims[i] == claim && out == Named(claims[..i])
    ensures r == Named(claims[..i + 1])
  {
    assert claims[..i + 1][..i] == claims[..i];
    if claim.None? {
      return out;
    }
    return out[claim.value.0 := claim.value.1];
  }

  // ---- Texture slots ----

  datatype Texv = NotTexv | BadTexv | Texv(realBytes: nat)

  datatype Slot = Texture(name: string, reference: string, bytes: Bytes) | RenderTarget(name: string) | Previous

  datatype Override = Override(
    combos: map<string, string>, constants: map<string, string>, textures: Names, userTextures: Names)

  /** The first pass of a material file; a file without one reads as nothing. `userTextures` is not used. */
  datatype MaterialFile = MaterialFile(
    shader: Option<string>, blending: Option<string>,
    combos: map<string, string>, constants: map<string, string>, textures: seq<Value>, userTextures: Names)

  datatype RawPass =
    | NotObject
    | RawCommand(command: Option<string>, source: Option<string>, target: Option<string>)
    | RawMaterial(material: Option<string>, bind: Names, target: Option<string>)

  /** `scale` is the number as 32 bits when it is finite there. */
  datatype RawFbo =
    | NotFbo
    | RawFbo(name: Option<string>, format: Option<string>, scale: Option<real>, unique: Option<bool>)

  datatype EffectFile = EffectFile(name: string, fbos: seq<RawFbo>, passes: seq<RawPass>)

  /** How references read: bytes, their texture header, and their JSON when it has the shape asked for. */
  datatype World = World(
    lookup: string -> Option<Bytes>,
    texv: Bytes -> Texv,
    material: Bytes -> Option<MaterialFile>,
    effect: Bytes -> Option<EffectFile>,
    readIndex: string -> Option<nat>)
  {
    function Small(reference: string): (r: Option<Bytes>)
      ensures r.Some? ==> |r.value| <= MAX_EFFECT_JSON_BYTES
    {
      var bytes := lookup(reference);
      if bytes.Some? && |bytes.value| <= MAX_EFFECT_JSON_BYTES then bytes else None
    }

    function MaterialAt(reference: string): Option<MaterialFile> {
      if Small(reference).Some? then material(Small(reference).value) else None
    }

    function EffectAt(reference: string): Option<EffectFile> {
      if Small(reference).Some? then effect(Small(reference).value) else None
    }

    predicate Decodable(bytes: Bytes) {
      match texv(bytes)
      case NotTexv => true
      case BadTexv => false
      case Texv(realBytes) => realBytes <= MAX_SINGLE_TEXTURE_BUDGET_BYTES
    }

    function ResolveName(name: string): Option<Slot> {
      if name == "previous" then Some(Previous)
      else if "_rt_" <= name || "_alias_" <= name then Some(RenderTarget(name))
      else
        var reference := "materials/" + name + ".tex";
        var bytes := lookup(reference);
        if bytes.Some? && Decodable(bytes.value) then Some(Texture(name, reference, bytes.value)) else None
    }

    function Naming(names: Names): map<nat, string> {
      Named(ClaimsOf(readIndex, names))
    }

    /** The name of every slot, later layers over earlier ones. */
    function SlotNames(file: MaterialFile, over: Option<Override>, bind: Names): map<nat, string> {
      Named(Positional(file.textures))
      + (if over.Some? then Naming(over.value.userTextures) + Naming(over.value.textures) else map[])
      + Naming(bind)
    }

    /** An unnamed slot is empty, except that slot 0 reads the previous stage. */
    function SlotAt(names: map<nat, string>, slot: nat): Option<Option<Slot>> {
      if slot !in names then Some(if slot == 0 then Some(Previous) else None)
      else
        var resolved := ResolveName(names[slot]);
        if resolved.Some? then Some(resolved) else None
    }

    function Slots(names: map<nat, string>): Option<seq<Option<Slot>>> {
      if exists i: nat :: i < MAX_MATERIAL_TEXTURES && SlotAt(names, i).None? then None
      else Some(seq(MAX_MATERIAL_TEXTURES, i requires 0 <= i < MAX_MATERIAL_TEXTURES => SlotAt(names, i).value))
    }

    function MaterialPass(raw: RawPass, over: Option<Override>): Option<Pass>
      requires raw.RawMaterial?
    {
      if raw.material.None? || MaterialAt(raw.material.value).None? then None
      else
        var file := MaterialAt(raw.material.value).value;
        var slots := Slots(SlotNames(file, over, raw.bind));
        if slots.None? then None
        else
          Some(Material(raw.material.value, file.shader, file.blending,
                        file.combos + (if over.Some? then over.value.combos else map[]),
                        file.constants + (if over.Some? then over.value.constants else map[]),
                        slots.value, raw.target))
    }
  }

  datatype Pass =
    | Command(swap: bool, source: string, destination: string)
    | Material(reference: string, shader: Option<string>, blending: Option<string>,
               combos: map<string, string>, constants: map<string, string>,
               slots: seq<Option<Slot>>, target: Option<string>)

  /** The merging and resolving of one material pass, layer by layer and slot by slot. */
  method ResolveMaterialPass(w: World, raw: RawPass, over: Option<Override>) returns (r: Option<Pass>)
    requires raw.RawMaterial?
    ensures r == w.MaterialPass(raw, over)
  {
    hide World.ResolveName, World.MaterialAt, ClaimsOf, Named;
    if raw.material.None? {
      return None;
    }
    var read := w.MaterialAt(raw.material.value);
    if read.None? {
      return None;
    }
    var file := read.value;
    var combos, constants := file.combos, file.constants;
    var names := Named(Positional(file.textures));
    if over.Some? {
      combos := combos + over.value.combos;
      constants := constants + over.value.constants;
      var userTextures := ParseIndexNames(w.readIndex, over.value.userTextures);
      var textures := ParseIndexNames(w.readIndex, over.value.textures);
      names := names + (userTextures + textures);
    } else {
      assert names + map[] == names;
      assert combos + map[] == combos && constants + map[] == constants;
    }
    var bind := ParseIndexNames(w.readIndex, raw.bind);
    names := names + bind;
    assert names == w.SlotNames(file, over, raw.bind);
    var slots: seq<Option<Slot>> := [];
    for i := 0 to MAX_MATERIAL_TEXTURES
      invariant |slots| == i && forall j: nat :: j < i ==> w.SlotAt(names, j) == Some(slots[j])
    {
      if i !in names {
        slots := slots + [if i == 0 then Some(Previous) else None];
        continue;
      }
      var slot := w.ResolveName(names[i]);
      if slot.None? {
        assert w.SlotAt(names, i).None?;
        return None;
      }
      slots := slots + [slot];
    }
    assert slots == seq(MAX_MATERIAL_TEXTURES, i requires 0 <= i < MAX_MATERIAL_TEXTURES => w.SlotAt(names, i).value);
    return Some(Material(raw.material.value, file.shader, file.blending, combos, constants, slots, raw.target));
  }

  // ---- What a resolved material pass binds ----

  /** All claims to the slots of a pass, weakest layer first. */
  function AllClaims(w: World, file: MaterialFile, over: Option<Override>, bind: Names): seq<Claim> {
    (Positional(file.textures) + OverrideClaims(w, over)) + ClaimsOf(w.readIndex, bind)
  }

  function OverrideClaims(w: World, over: Option<Override>): seq<Claim> {
    if over.None? then []
    else ClaimsOf(w.readIndex, over.value.userTextures) + ClaimsOf(w.readIndex, over.value.textures)
  }

  lemma {:induction false} NamedAppend(a: seq<Claim>, b: seq<Claim>)
    ensures Named(a + b) == Named(a) + Named(b)
  {
    if b == [] {
      assert a + b == a;
    } else {
      var n := |b| - 1;
      NamedAppend(a, b[..n]);
      assert (a + b)[..|a| + n] == a + b[..n];
      assert (a + b)[|a| + n] == b[n];
    }
  }

  /** Layering maps is the same as letting the last claim of all layers win. */
  lemma {:induction false} LayersAreClaims(w: World, file: MaterialFile, over: Option<Override>, bind: Names)
    ensures w.SlotNames(file, over, bind) == Named(AllClaims(w, file, over, bind))
  {
    var own := Positional(file.textures);
    var middle := OverrideClaims(w, over);
    NamedAppend(own + middle, ClaimsOf(w.readIndex, bind));
    NamedAppend(own, middle);
    if over.Some? {
      NamedAppend(ClaimsOf(w.readIndex, over.value.userTextures), ClaimsOf(w.readIndex, over.value.textures));
    }
  }

  /** The slot as its last claim has it: unresolvable, bound, or left to its default. */
  ghost predicate Binds(w: World, claims: seq<Claim>, slot: nat, bound: Option<Slot>) {
    if exists i: nat :: LastClaim(claims, slot, i)
    then bound.Some? && forall i: nat :: LastClaim(claims, slot, i) ==> w.ResolveName(claims[i].value.1) == bound
    else bound == if slot == 0 then Some(Previous) else None
  }

  ghost predicate Unresolvable(w: World, claims: seq<Claim>, i: nat) {
    i < |claims| && claims[i].Some? && LastClaim(claims, claims[i].value.0, i) && w.ResolveName(claims[i].value.1).None?
  }

  /**
   * A material pass resolves exactly when its material does and no winning claim to a slot is
   * unresolvable; binds win over the override's textures, those over its user textures, those over the
   * material's own, and a slot nobody claims is empty but for slot 0, which reads the previous stage.
   */
  lemma {:induction false} SlotsExact(w: World, raw: RawPass, over: Option<Override>)
    requires raw.RawMaterial? && raw.material.Some? && w.MaterialAt(raw.material.value).Some?
    ensures var claims := AllClaims(w, w.MaterialAt(raw.material.value).value, over, raw.bind);
            var pass := w.MaterialPass(raw, over);
            && (pass.None? <==> exists i: nat :: Unresolvable(w, claims, i))
            && (pass.Some? ==> |pass.value.slots| == MAX_MATERIAL_TEXTURES)
            && (pass.Some? ==> forall k: nat :: k < MAX_MATERIAL_TEXTURES ==> Binds(w, claims, k, pass.value.slots[k]))
  {
    hide World.ResolveName, Named, ClaimsOf, Positional;
    var file := w.MaterialAt(raw.material.value).value;
    var claims := AllClaims(w, file, over, raw.bind);
    var names := w.SlotNames(file, over, raw.bind);
    LayersAreClaims(w, file, over, raw.bind);
    ClaimsAreSlots(w, file, over, raw.bind);
    forall k: nat
      ensures w.SlotAt(names, k).None? <==> exists i: nat :: Unresolvable(w, claims, i) && claims[i].value.0 == k
      ensures w.SlotAt(names, k).Some? ==> Binds(w, claims, k, w.SlotAt(names, k).value)
    {
      NamedExact(claims, k);
      if k in names {
        var i: nat :| LastClaim(claims, k, i);
        assert Unresolvable(w, claims, i) <==> w.ResolveName(names[k]).None?;
      }
    }
    if i: nat :| Unresolvable(w, claims, i) {
      assert w.SlotAt(names, claims[i].value.0).None?;
    }
  }

  lemma {:induction false} ClaimsAreSlots(w: World, file: MaterialFile, over: Option<Override>, bind: Names)
    ensures forall c :: c in AllClaims(w, file, over, bind) && c.Some? ==> c.value.0 < MAX_MATERIAL_TEXTURES
  {
    hide Positional, ClaimsOf;
    PositionalInRange(file.textures);
    ClaimsInRange(w, bind);
    if over.Some? {
      ClaimsInRange(w, over.value.textures);
      ClaimsInRange(w, over.value.userTextures);
    }
  }

  lemma {:induction false} PositionalInRange(values: seq<Value>)
    ensures forall c :: c in Positional(values) && c.Some? ==> c.value.0 < MAX_MATERIAL_TEXTURES
  {
  }

  lemma {:induction false} ClaimsInRange(w: World, names: Names)
    ensures forall c :: c in ClaimsOf(w.readIndex, names) && c.Some? ==> c.value.0 < MAX_MATERIAL_TEXTURES
  {
  }

  // ---- The documented order of layers ----

  function OverrideNames(w: World, over: Option<Override>, user: bool): map<nat, string> {
    if over.None? then map[] else w.Naming(if user then over.value.userTextures else over.value.textures)
  }

  /** The order the header comment gives: user textures over textures, in the material and the override. */
  function DocumentedNames(w: World, file: MaterialFile, over: Option<Override>, bind: Names): map<nat, string> {
    Named(Positional(file.textures)) + w.Naming(file.userTextures)
    + OverrideNames(w, over, false) + OverrideNames(w, over, true) + w.Naming(bind)
  }

  /** The slot is unbound and its two kinds of names differ in the override, or else in the material. */
  predicate Contested(w: World, file: MaterialFile, over: Option<Override>, bind: Names, slot: nat) {
    Differ(Named(Positional(file.textures)), w.Naming(file.userTextures),
           OverrideNames(w, over, false), OverrideNames(w, over, true), w.Naming(bind), slot)
  }

  predicate Differ(own: map<nat, string>, ownUser: map<nat, string>, textures: map<nat, string>,
                   user: map<nat, string>, bound: map<nat, string>, slot: nat) {
    && slot !in bound
    && if slot in textures || slot in user then slot in textures && slot in user && textures[slot] != user[slot]
       else slot in ownUser && (slot !in own || own[slot] != ownUser[slot])
  }

  lemma {:induction false} LayersDiffer(own: map<nat, string>, ownUser: map<nat, string>, textures: map<nat, string>,
                                        user: map<nat, string>, bound: map<nat, string>, slot: nat)
    ensures var used, documented := own + (user + textures) + bound, own + ownUser + textures + user + bound;
            && (slot in used ==> slot in documented)
            && (Differ(own, ownUser, textures, user, bound, slot) <==>
                slot in documented && (slot !in used || used[slot] != documented[slot]))
  {
  }

  lemma {:induction false} ContestedMeans(w: World, file: MaterialFile, over: Option<Override>, bind: Names, slot: nat)
    ensures var used, documented := w.SlotNames(file, over, bind), DocumentedNames(w, file, over, bind);
            && (slot in used ==> slot in documented)
            && (Contested(w, file, over, bind, slot) <==>
                slot in documented && (slot !in used || used[slot] != documented[slot]))
  {
    hide Named, Positional, World.Naming, Differ;
    var textures, user := OverrideNames(w, over, false), OverrideNames(w, over, true);
    LayersDiffer(Named(Positional(file.textures)), w.Naming(file.userTextures), textures, user, w.Naming(bind), slot);
    assert over.None? ==> textures + user == map[];
  }

  lemma {:induction false} DocumentedNamesExact(w: World, file: MaterialFile, over: Option<Override>, bind: Names)
    ensures w.SlotNames(file, over, bind) == DocumentedNames(w, file, over, bind) <==>
            forall slot: nat :: !Contested(w, file, over, bind, slot)
  {
    hide Contested, World.SlotNames, DocumentedNames;
    forall slot: nat {
      ContestedMeans(w, file, over, bind, slot);
    }
  }

  lemma {:induction false} NamingInRange(w: World, names: Names, slot: nat)
    ensures slot in w.Naming(names) ==> slot < MAX_MATERIAL_TEXTURES
  {
    hide Named, ClaimsOf;
    if slot in w.Naming(names) {
      ClaimsInRange(w, names);
      NamedInRange(ClaimsOf(w.readIndex, names), slot);
    }
  }

  lemma {:induction false} DocumentedInRange(w: World, file: MaterialFile, over: Option<Override>, bind: Names,
                                             slot: nat)
    requires slot in DocumentedNames(w, file, over, bind)
    ensures slot < MAX_MATERIAL_TEXTURES
  {
    hide Named, Positional, World.Naming;
    NamingInRange(w, file.userTextures, slot);
    NamingInRange(w, bind, slot);
    if over.Some? {
      NamingInRange(w, over.value.textures, slot);
      NamingInRange(w, over.value.userTextures, slot);
    }
    if slot in Named(Positional(file.textures)) {
      PositionalInRange(file.textures);
      NamedInRange(Positional(file.textures), slot);
    }
  }

  /** An override that names slot 1 both ways: the code takes `textures`, the comment `usertextures`. */
  lemma {:induction false} OverrideTexturesWin(w: World, file: MaterialFile)
    ensures var over := Some(Override(map[], map[], Listed([Other, Plain("a")]), Listed([Other, Plain("b")])));
            var used, documented := w.SlotNames(file, over, NoNames), DocumentedNames(w, file, over, NoNames);
            1 in used && used[1] == "a" && 1 in documented && documented[1] == "b"
  {
    NamedSecond("a");
    NamedSecond("b");
    assert ClaimsOf(w.readIndex, Listed([Other, Plain("a")])) == Positional([Other, Plain("a")]);
    assert ClaimsOf(w.readIndex, Listed([Other, Plain("b")])) == Positional([Other, Plain("b")]);
  }

  lemma {:induction false} NamedSecond(name: string)
    requires name != ""
    ensures Named(Positional([Other, Plain(name)])) == map[1 := name]
  {
    var claims: seq<Claim> := Positional([Other, Plain(name)]);
    assert claims == [None, Some((1, name))];
    assert Named(claims[..1]) == map[];
  }

  /** Different names never resolve to the same slot. */
  lemma {:induction false} NamesTellSlotsApart(w: World, a: string, b: string)
    requires w.ResolveName(a).Some? && w.ResolveName(a) == w.ResolveName(b)
    ensures a == b
  {
  }

  lemma {:induction false} NamedInRange(claims: seq<Claim>, slot: nat)
    requires slot in Named(claims) && forall c :: c in claims && c.Some? ==> c.value.0 < MAX_MATERIAL_TEXTURES
    ensures slot < MAX_MATERIAL_TEXTURES
  {
    NamedExact(claims, slot);
    var i: nat :| LastClaim(claims, slot, i);
    assert claims[i] in claims;
  }

  /** Renaming a slot is seen in the slots unless it names the default that an unnamed slot has anyway. */
  lemma {:induction false} SlotSeen(w: World, used: map<nat, string>, documented: map<nat, string>, slot: nat)
    requires w.SlotAt(used, slot).Some? && slot in documented
    ensures w.SlotAt(used, slot) == w.SlotAt(documented, slot) <==>
            if slot in used then used[slot] == documented[slot] else slot == 0 && documented[slot] == "previous"
  {
    hide World.ResolveName;
    if slot in used && w.ResolveName(used[slot]) == w.ResolveName(documented[slot]) {
      NamesTellSlotsApart(w, used[slot], documented[slot]);
    }
    ResolvesToPrevious(w, documented[slot]);
  }

  lemma {:induction false} ResolvesToPrevious(w: World, name: string)
    ensures w.ResolveName(name) == Some(Previous) <==> name == "previous"
  {
  }

  /** A pass resolved in the order used: only slot 0 can be named differently and still be the same. */
  lemma {:induction false} ResolvedOrderExact(w: World, file: MaterialFile, over: Option<Override>, bind: Names)
    requires w.Slots(w.SlotNames(file, over, bind)).Some?
    ensures var used, documented := w.SlotNames(file, over, bind), DocumentedNames(w, file, over, bind);
            w.Slots(used) == w.Slots(documented) <==>
            forall slot: nat :: Contested(w, file, over, bind, slot) ==>
              slot == 0 && slot !in used && 0 in documented && documented[0] == "previous"
  {
    hide Contested, World.SlotNames, DocumentedNames, World.SlotAt;
    var used, documented := w.SlotNames(file, over, bind), DocumentedNames(w, file, over, bind);
    forall slot: nat
      ensures slot < MAX_MATERIAL_TEXTURES ==>
                (w.SlotAt(used, slot) == w.SlotAt(documented, slot) <==>
                 (Contested(w, file, over, bind, slot) ==>
                    slot == 0 && slot !in used && slot in documented && documented[slot] == "previous"))
      ensures Contested(w, file, over, bind, slot) ==> slot < MAX_MATERIAL_TEXTURES
    {
      ContestedMeans(w, file, over, bind, slot);
      if slot in documented {
        DocumentedInRange(w, file, over, bind, slot);
        assert w.SlotAt(used, slot).Some?;
        SlotSeen(w, used, documented, slot);
      } else {
        SameDefault(w, used, documented, slot);
      }
    }
    SameSlots(w, used, documented);
  }

  /** A pass is unresolvable in the documented order exactly when some name it gives is. */
  lemma {:induction false} DocumentedFails(w: World, file: MaterialFile, over: Option<Override>, bind: Names)
    ensures var documented := DocumentedNames(w, file, over, bind);
            w.Slots(documented).None? <==>
            exists slot: nat :: slot in documented && w.ResolveName(documented[slot]).None?
  {
    hide DocumentedNames, World.ResolveName;
    var documented := DocumentedNames(w, file, over, bind);
    if slot: nat :| slot in documented && w.ResolveName(documented[slot]).None? {
      DocumentedInRange(w, file, over, bind, slot);
      assert w.SlotAt(documented, slot).None?;
    }
  }

  /**
   * What a pass resolves to, in the order the code uses and in the documented one. A pass the code resolves
   * has the same slots in both exactly when every slot the orders name differently is slot 0, unnamed in
   * one and named as the previous stage in the other. A pass the code drops is dropped in both exactly when
   * the documented order, too, gives some slot an unresolvable name.
   */
  lemma {:induction false} DocumentedOrderExact(w: World, file: MaterialFile, over: Option<Override>, bind: Names)
    ensures var used, documented := w.SlotNames(file, over, bind), DocumentedNames(w, file, over, bind);
            w.Slots(used) == w.Slots(documented) <==>
            if w.Slots(used).Some? then
              forall slot: nat :: Contested(w, file, over, bind, slot) ==>
                slot == 0 && slot !in used && 0 in documented && documented[0] == "previous"
            else
              exists slot: nat :: slot in documented && w.ResolveName(documented[slot]).None?
  {
    hide Contested, World.SlotNames, DocumentedNames, World.Slots, World.ResolveName;
    if w.Slots(w.SlotNames(file, over, bind)).Some? {
      ResolvedOrderExact(w, file, over, bind);
    } else {
      DocumentedFails(w, file, over, bind);
    }
  }

  /** The code drops the pass for a missing texture where the documented order has the previous stage. */
  lemma {:induction false} DroppedForTextures(w: World, file: MaterialFile)
    requires file.textures == [] && file.userTextures == NoNames
    requires w.lookup("materials/a.tex").None?
    ensures var over := Some(Override(map[], map[], Listed([Other, Plain("a")]), Listed([Other, Plain("previous")])));
            && w.Slots(w.SlotNames(file, over, NoNames)).None?
            && w.Slots(DocumentedNames(w, file, over, NoNames)).Some?
  {
    var over := Some(Override(map[], map[], Listed([Other, Plain("a")]), Listed([Other, Plain("previous")])));
    NamedSecond("a");
    NamedSecond("previous");
    assert ClaimsOf(w.readIndex, over.value.textures) == Positional([Other, Plain("a")]);
    assert ClaimsOf(w.readIndex, over.value.userTextures) == Positional([Other, Plain("previous")]);
    var used, documented := w.SlotNames(file, over, NoNames), DocumentedNames(w, file, over, NoNames);
    assert used == map[1 := "a"] && documented == map[1 := "previous"];
    assert "materials/" + "a" + ".tex" == "materials/a.tex";
    assert w.SlotAt(used, 1).None?;
    assert forall i: nat :: w.SlotAt(documented, i).Some?;
  }

  lemma {:induction false} SameDefault(w: World, used: map<nat, string>, documented: map<nat, string>, slot: nat)
    requires slot !in used && slot !in documented
    ensures w.SlotAt(used, slot) == w.SlotAt(documented, slot)
  {
  }

  lemma {:induction false} SameSlots(w: World, used: map<nat, string>, documented: map<nat, string>)
    requires w.Slots(used).Some?
    ensures w.Slots(used) == w.Slots(documented) <==>
            forall slot: nat :: slot < MAX_MATERIAL_TEXTURES ==> w.SlotAt(used, slot) == w.SlotAt(documented, slot)
  {
    hide World.SlotAt;
    if w.Slots(used) == w.Slots(documented) {
      forall slot: nat | slot < MAX_MATERIAL_TEXTURES
        ensures w.SlotAt(used, slot) == w.SlotAt(documented, slot)
      {
        assert w.Slots(used).value[slot] == w.Slots(documented).value[slot];
      }
    }
    if forall slot: nat :: slot < MAX_MATERIAL_TEXTURES ==> w.SlotAt(used, slot) == w.SlotAt(documented, slot) {
      assert w.Slots(documented).Some?;
      assert w.Slots(used).value == w.Slots(documented).value;
    }
  }

  // ---- Passes ----

  function CommandPass(raw: RawPass): Option<Pass>
    requires raw.RawCommand?
  {
    if (raw.command == Some("copy") || raw.command == Some("swap")) && raw.source.Some? && raw.target.Some?
    then Some(Command(raw.command == Some("swap"), raw.source.value, raw.target.value))
    else None
  }

  function MaterialsIn(raw: seq<RawPass>): nat {
    if raw == [] then 0 else MaterialsIn(raw[..|raw| - 1]) + if raw[|raw| - 1].RawMaterial? then 1 else 0
  }

  function Nth<T>(s: seq<T>, i: nat): Option<T> {
    if i < |s| then Some(s[i]) else None
  }

  /** Pass `i` resolved; a material pass takes the override numbered by the material passes before it. */
  function PassAt(w: World, raw: seq<RawPass>, overrides: seq<Override>, i: nat): Option<Pass>
    requires i < |raw|
  {
    match raw[i]
    case NotObject => None
    case RawCommand(_, _, _) => CommandPass(raw[i])
    case RawMaterial(_, _, _) => w.MaterialPass(raw[i], Nth(overrides, MaterialsIn(raw[..i])))
  }

  /** All of the first 16 passes, or nothing. */
  function Passes(w: World, raw: seq<RawPass>, overrides: seq<Override>): Option<seq<Pass>> {
    var n := Capped(|raw|, MAX_PASSES_PER_EFFECT);
    if n == 0 || exists i: nat :: i < n && PassAt(w, raw, overrides, i).None? then None
    else Some(seq(n, i requires 0 <= i < n => PassAt(w, raw, overrides, i).value))
  }

  method ParsePasses(w: World, raw: seq<RawPass>, overrides: seq<Override>) returns (r: Option<seq<Pass>>)
    ensures r == Passes(w, raw, overrides)
  {
    hide World.MaterialPass;
    if |raw| == 0 {
      return None;
    }
    var passes: seq<Pass> := [];
    var overrideIndex := 0;
    for i := 0 to Capped(|raw|, MAX_PASSES_PER_EFFECT)
      invariant overrideIndex == MaterialsIn(raw[..i])
      invariant |passes| == i && forall j: nat :: j < i ==> PassAt(w, raw, overrides, j) == Some(passes[j])
    {
      assert raw[..i + 1][..i] == raw[..i];
      match raw[i] {
        case NotObject =>
          assert PassAt(w, raw, overrides, i).None?;
          return None;
        case RawCommand(_, _, _) =>
          var command := CommandPass(raw[i]);
          if command.None? {
            assert PassAt(w, raw, overrides, i).None?;
            return None;
          }
          passes := passes + [command.value];
        case RawMaterial(_, _, _) =>
          var over := Nth(overrides, overrideIndex);
          overrideIndex := overrideIndex + 1;
          var material := ResolveMaterialPass(w, raw[i], over);
          if material.None? {
            assert PassAt(w, raw, overrides, i).None?;
            return None;
          }
          passes := passes + [material.value];
      }
    }
    assert passes == seq(|passes|, i requires 0 <= i < |passes| => PassAt(w, raw, overrides, i).value);
    return Some(passes);
  }

  // ---- Frame buffers ----

  datatype Fbo = Fbo(name: string, format: string, scale: real, unique: bool)

  function Or<T>(value: Option<T>, default: T): T {
    if value.Some? then value.value else default
  }

  /** A named entry, with a positive scale whatever it asks for. */
  function FboOf(raw: RawFbo): (r: Option<Fbo>)
    ensures r.Some? <==> raw.RawFbo? && raw.name.Some?
    ensures r.Some? ==> r.value.name == raw.name.value && r.value.scale > 0.0
  {
    if raw.NotFbo? || raw.name.None? then None
    else
      Some(Fbo(raw.name.value, Or(raw.format, "rgba8888"),
               if raw.scale.Some? && raw.scale.value > 0.0 then raw.scale.value else 1.0, Or(raw.unique, false)))
  }

  /** The usable entries, in order. */
  function Fbos(raw: seq<RawFbo>): (r: seq<Fbo>)
    ensures forall b :: b in r <==> exists i :: 0 <= i < |raw| && FboOf(raw[i]) == Some(b)
  {
    if raw == [] then []
    else
      var n := |raw| - 1;
      var before, last := Fbos(raw[..n]), FboOf(raw[n]);
      assert forall i :: 0 <= i < n ==> raw[..n][i] == raw[i];
      if last.Some? then before + [last.value] else before
  }

  method ParseFbos(raw: seq<RawFbo>) returns (fbos: seq<Fbo>)
    ensures fbos == Fbos(raw[..Capped(|raw|, MAX_FBOS_PER_EFFECT)])
  {
    fbos := [];
    for i := 0 to Capped(|raw|, MAX_FBOS_PER_EFFECT)
      invariant fbos == Fbos(raw[..i])
    {
      assert raw[..i + 1][..i] == raw[..i];
      if raw[i].NotFbo? || raw[i].name.None? {
        continue;
      }
      fbos := fbos + [FboOf(raw[i]).value];
    }
  }

  // ---- Overrides and material passes in step ----

  function RawMaterials(raw: seq<RawPass>): (r: seq<RawPass>)
    ensures |r| == MaterialsIn(raw) && forall p :: p in r ==> p.RawMaterial?
  {
    if raw == [] then []
    else
      var before, last := RawMaterials(raw[..|raw| - 1]), raw[|raw| - 1];
      if last.RawMaterial? then before + [last] else before
  }

  function Materials(passes: seq<Pass>): seq<Pass> {
    if passes == [] then []
    else
      var before, last := Materials(passes[..|passes| - 1]), passes[|passes| - 1];
      if last.Material? then before + [last] else before
  }

  ghost predicate InStep(w: World, raw: seq<RawPass>, passes: seq<Pass>, overrides: seq<Override>) {
    && |Materials(passes)| == |RawMaterials(raw)|
    && forall j: nat :: j < |Materials(passes)| ==>
         w.MaterialPass(RawMaterials(raw)[j], Nth(overrides, j)) == Some(Materials(passes)[j])
  }

  /** A pass keeps its kind, and a material pass is resolved with the override of its number. */
  lemma {:induction false} PassKeepsKind(w: World, raw: seq<RawPass>, overrides: seq<Override>, i: nat)
    requires i < |raw| && PassAt(w, raw, overrides, i).Some?
    ensures PassAt(w, raw, overrides, i).value.Material? <==> raw[i].RawMaterial?
    ensures raw[i].RawMaterial? ==>
              PassAt(w, raw, overrides, i) == w.MaterialPass(raw[i], Nth(overrides, MaterialsIn(raw[..i])))
  {
  }

  lemma {:induction false} PrefixInStep(w: World, raw: seq<RawPass>, overrides: seq<Override>, passes: seq<Pass>)
    requires |passes| <= |raw| && forall i: nat :: i < |passes| ==> PassAt(w, raw, overrides, i) == Some(passes[i])
    ensures InStep(w, raw[..|passes|], passes, overrides)
  {
    hide World.MaterialPass, PassAt;
    if passes != [] {
      var n := |passes| - 1;
      PrefixInStep(w, raw, overrides, passes[..n]);
      assert raw[..n + 1][..n] == raw[..n];
      assert PassAt(w, raw, overrides, n) == Some(passes[n]);
      PassKeepsKind(w, raw, overrides, n);
    }
  }

  /** The passes that are looked at. */
  function Counted(raw: seq<RawPass>): seq<RawPass> {
    raw[..Capped(|raw|, MAX_PASSES_PER_EFFECT)]
  }

  /**
   * In a resolved effect the j-th material pass is resolved with the j-th override, wherever the command
   * passes stand: two effects with the same material passes among those looked at resolve them to the
   * same passes.
   */
  lemma {:induction false} OverridesFollowMaterials(w: World, a: seq<RawPass>, b: seq<RawPass>,
                                                    overrides: seq<Override>)
    requires RawMaterials(Counted(a)) == RawMaterials(Counted(b))
    requires Passes(w, a, overrides).Some? && Passes(w, b, overrides).Some?
    ensures InStep(w, Counted(a), Passes(w, a, overrides).value, overrides)
    ensures Materials(Passes(w, a, overrides).value) == Materials(Passes(w, b, overrides).value)
  {
    hide World.MaterialPass, PassAt;
    var x, y := Passes(w, a, overrides).value, Passes(w, b, overrides).value;
    PrefixInStep(w, a, overrides, x);
    PrefixInStep(w, b, overrides, y);
    forall j: nat | j < |Materials(x)|
      ensures Materials(x)[j] == Materials(y)[j]
    {
      assert w.MaterialPass(RawMaterials(Counted(a))[j], Nth(overrides, j)) == Some(Materials(x)[j]);
    }
  }

  // ---- The effects of an object ----

  /** An entry of an object's `effects`, with the defaults of its optional fields filled in. */
  datatype RawEffect =
    | NoEffect
    | RawEffect(id: int, name: string, visible: bool, file: Option<string>, overrides: seq<Override>)

  datatype Effect = Effect(
    id: int, name: string, visible: bool, effectName: string, fbos: seq<Fbo>, passes: seq<Pass>)

  function EffectOf(w: World, raw: RawEffect): Option<Effect> {
    if raw.NoEffect? || raw.file.None? || w.EffectAt(raw.file.value).None? then None
    else
      var file := w.EffectAt(raw.file.value).value;
      var passes := Passes(w, file.passes, raw.overrides);
      if passes.None? then None
      else
        Some(Effect(raw.id, raw.name, raw.visible, file.name,
                    Fbos(file.fbos[..Capped(|file.fbos|, MAX_FBOS_PER_EFFECT)]), passes.value))
  }

  function Resolved(w: World, raw: seq<RawEffect>): seq<Effect> {
    if raw == [] then []
    else
      var before, last := Resolved(w, raw[..|raw| - 1]), EffectOf(w, raw[|raw| - 1]);
      if last.Some? then before + [last.value] else before
  }

  method ResolveObjectEffects(w: World, raw: seq<RawEffect>) returns (out: seq<Effect>)
    ensures out == Resolved(w, if |raw| <= 32 then raw else raw[..32])
  {
    hide Passes;
    out := [];
    for i := 0 to Capped(|raw|, MAX_EFFECTS_PER_OBJECT)
      invariant out == Resolved(w, raw[..i])
    {
      assert raw[..i + 1][..i] == raw[..i];
      if raw[i].NoEffect? || raw[i].file.None? {
        continue;
      }
      var file := w.EffectAt(raw[i].file.value);
      if file.None? {
        continue;
      }
      var passes := ParsePasses(w, file.value.passes, raw[i].overrides);
      if passes.None? {
        continue;
      }
      var fbos := ParseFbos(file.value.fbos);
      out := out + [Effect(raw[i].id, raw[i].name, raw[i].visible, file.value.name, fbos, passes.value)];
    }
    assert raw[..|raw|] == raw;
  }

  /** Which entries the resolved effects come from. */
  function Sources(w: World, raw: seq<RawEffect>): (r: seq<nat>)
    ensures forall k :: 0 <= k < |r| ==> r[k] < |raw|
  {
    if raw == [] then []
    else
      var before := Sources(w, raw[..|raw| - 1]);
      if EffectOf(w, raw[|raw| - 1]).Some? then before + [|raw| - 1] else before
  }

  /** An entry that cannot be resolved is left out and changes nothing about the others or their order. */
  lemma {:induction false} EffectsExact(w: World, raw: seq<RawEffect>)
    ensures var out, from := Resolved(w, raw), Sources(w, raw);
            && |out| == |from|
            && (forall k :: 0 <= k < |out| ==> EffectOf(w, raw[from[k]]) == Some(out[k]))
            && (forall a, b :: 0 <= a < b < |from| ==> from[a] < from[b])
            && (forall i: nat :: i < |raw| ==> (i in from <==> EffectOf(w, raw[i]).Some?))
  {
    hide EffectOf;
    if raw != [] {
      var n := |raw| - 1;
      EffectsExact(w, raw[..n]);
      var from := Sources(w, raw[..n]);
      assert forall k :: 0 <= k < |from| ==> from[k] in from;
    }
  }

  // ---- Single values ----

  /** An effect resolves to passes exactly when each of its first 16 does, in its place. */
  lemma {:induction false} PassesExact(w: World, raw: seq<RawPass>, overrides: seq<Override>, passes: seq<Pass>)
    ensures Passes(w, raw, overrides) == Some(passes) <==>
            && raw != [] && |passes| == (if |raw| <= 16 then |raw| else 16)
            && forall i: nat :: i < |passes| ==> PassAt(w, raw, overrides, i) == Some(passes[i])
    ensures forall i: nat :: i < |raw| && raw[i].RawCommand? ==> PassAt(w, raw, overrides, i) == CommandPass(raw[i])
    ensures forall i: nat :: i < |raw| && raw[i].NotObject? ==> PassAt(w, raw, overrides, i) == None
  {
    hide World.MaterialPass, CommandPass;
    if Passes(w, raw, overrides).Some? {
      var resolved := Passes(w, raw, overrides).value;
      if |passes| == |resolved| && forall i: nat :: i < |passes| ==> PassAt(w, raw, overrides, i) == Some(passes[i]) {
        assert passes == resolved;
      }
    }
  }

  /** A copy or a swap of two named buffers, and nothing else, is a command. */
  lemma {:induction false} CommandExact(raw: RawPass, swap: bool, source: string, destination: string)
    requires raw.RawCommand?
    ensures CommandPass(raw) == Some(Command(swap, source, destination)) <==>
            raw == RawCommand(Some(if swap then "swap" else "copy"), Some(source), Some(destination))
  {
  }

  /** Everything but the slots of a resolved material pass: an override's combos and constants win key by key. */
  lemma {:induction false} MaterialExact(w: World, raw: RawPass, over: Option<Override>, key: string)
    requires raw.RawMaterial? && w.MaterialPass(raw, over).Some?
    ensures raw.material.Some? && w.MaterialAt(raw.material.value).Some?
    ensures var file, pass := w.MaterialAt(raw.material.value).value, w.MaterialPass(raw, over).value;
            && pass.Material? && pass.reference == raw.material.value && pass.target == raw.target
            && pass.shader == file.shader && pass.blending == file.blending
            && Layered(pass.combos, file.combos, if over.Some? then over.value.combos else map[], key)
            && Layered(pass.constants, file.constants, if over.Some? then over.value.constants else map[], key)
  {
    hide World.Slots, World.SlotNames;
  }

  predicate Layered(merged: map<string, string>, below: map<string, string>, above: map<string, string>, key: string) {
    if key in above then key in merged && merged[key] == above[key]
    else if key in below then key in merged && merged[key] == below[key]
    else key !in merged
  }

  /** Files are looked up by their own reference and count only up to 1 MiB. */
  lemma {:induction false} FilesExact(w: World, reference: string)
    ensures var bytes := w.lookup(reference);
            && w.MaterialAt(reference)
                == (if bytes.Some? && |bytes.value| <= 1048576 then w.material(bytes.value) else None)
            && w.EffectAt(reference)
                == (if bytes.Some? && |bytes.value| <= 1048576 then w.effect(bytes.value) else None)
  {
  }

  /** What a name in a slot stands for. */
  lemma {:induction false} ResolveNameExact(w: World, name: string, bytes: Bytes)
    ensures w.ResolveName("previous") == Some(Previous)
    ensures w.ResolveName("_rt_" + name) == Some(RenderTarget("_rt_" + name))
    ensures w.ResolveName("_alias_" + name) == Some(RenderTarget("_alias_" + name))
    ensures name != "previous" && !("_rt_" <= name) && !("_alias_" <= name) ==>
              (w.ResolveName(name) == Some(Texture(name, "materials/" + name + ".tex", bytes)) <==>
               && w.lookup("materials/" + name + ".tex") == Some(bytes)
               && (w.texv(bytes).NotTexv? || (w.texv(bytes).Texv? && w.texv(bytes).realBytes <= 268435456)))
  {
    assert ("_rt_" + name)[0] != "previous"[0] && ("_alias_" + name)[0] != "previous"[0];
  }

  /** The defaults of a frame buffer. */
  lemma {:induction false} FboExact(raw: RawFbo)
    requires raw.RawFbo? && raw.name.Some?
    ensures FboOf(raw).Some?
    ensures var b := FboOf(raw).value;
            && b.name == raw.name.value
            && b.format == (if raw.format.Some? then raw.format.value else "rgba8888")
            && b.scale == (if raw.scale.Some? && raw.scale.value > 0.0 then raw.scale.value else 1.0)
            && b.unique == (raw.unique == Some(true))
  {
  }

  /** What an effect keeps of its entry and of its file. */
  lemma {:induction false} EffectExact(w: World, raw: RawEffect)
    ensures EffectOf(w, raw).Some? <==>
            && raw.RawEffect? && raw.file.Some? && w.EffectAt(raw.file.value).Some?
            && Passes(w, w.EffectAt(raw.file.value).value.passes, raw.overrides).Some?
    ensures EffectOf(w, raw).Some? ==>
              var e, file := EffectOf(w, raw).value, w.EffectAt(raw.file.value).value;
              && (e.id, e.name, e.visible, e.effectName) == (raw.id, raw.name, raw.visible, file.name)
              && e.fbos == Fbos(if |file.fbos| <= 16 then file.fbos else file.fbos[..16])
              && Some(e.passes) == Passes(w, file.passes, raw.overrides)
  {
    hide Passes, Fbos;
    if EffectOf(w, raw).Some? {
      var file := w.EffectAt(raw.file.value).value;
      assert file.fbos[..|file.fbos|] == file.fbos;
    }
  }

  /** Entry `i` names slot `slot`, in each of the three shapes names come in. */
  lemma {:induction false} ClaimsExact(readIndex: string -> Option<nat>, names: Names, i: nat, slot: nat, name: string)
    ensures var claims := ClaimsOf(readIndex, names);
            i < |claims| && claims[i] == Some((slot, name)) <==>
            slot < 8 && name != "" &&
            match names
            case NoNames => false
            case Keyed(byKey) =>
              && i < |byKey| && i < 32 && readIndex(byKey[i].0) == Some(slot)
              && (byKey[i].1 == Plain(name) || (byKey[i].1.Fields? && byKey[i].1.name == Some(name)))
            case Listed(values) =>
              if exists v :: v in values && v.Fields? && v.index != Absent then
                i < |values| && i < 32 && values[i] == Fields(Index(slot), Some(name))
              else
                && i < |values| && i == slot
                && (values[i] == Plain(name) || (values[i].Fields? && values[i].name == Some(name)))
  {
    hide *;
    match names
    case NoNames => NoClaims(readIndex);
    case Keyed(byKey) => KeyedClaims(readIndex, byKey, i, slot, name);
    case Listed(values) => ListedClaims(readIndex, values, i, slot, name);
  }

  lemma {:induction false} NoClaims(readIndex: string -> Option<nat>)
    ensures ClaimsOf(readIndex, NoNames) == []
  {
  }

  lemma {:induction false} KeyedClaims(readIndex: string -> Option<nat>, byKey: seq<(string, Value)>, i: nat, slot: nat,
                                       name: string)
    ensures var claims := ClaimsOf(readIndex, Keyed(byKey));
            i < |claims| && claims[i] == Some((slot, name)) <==>
            && slot < 8 && name != ""
            && i < |byKey| && i < 32 && readIndex(byKey[i].0) == Some(slot)
            && (byKey[i].1 == Plain(name) || (byKey[i].1.Fields? && byKey[i].1.name == Some(name)))
  {
  }

  lemma {:induction false} ListedClaims(
    readIndex: string -> Option<nat>, values: seq<Value>, i: nat, slot: nat, name: string)
    ensures var claims := ClaimsOf(readIndex, Listed(values));
            i < |claims| && claims[i] == Some((slot, name)) <==>
            slot < 8 && name != "" &&
            if exists v :: v in values && v.Fields? && v.index != Absent then
              i < |values| && i < 32 && values[i] == Fields(Index(slot), Some(name))
            else
              && i < |values| && i == slot
              && (values[i] == Plain(name) || (values[i].Fields? && values[i].name == Some(name)))
  {
  }
}
