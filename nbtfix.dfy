/** The repair rules of `fix_nbt_corruption`: enchantment levels of 0 are
    raised to 1, a stale ViaVersion marker is dropped from item custom data,
    entities carrying items with custom data are deleted from chunks, and the
    number of each kind of fix is tallied in `FixStats`.

    An NBT tree is a value owned by its chunk; the source edits it in place
    through `&mut`, and here each editing method returns the edited tree. */
module NbtFix {
  import opened Common

  type i16 = x: int | -0x8000 <= x < 0x8000
  type i64 = x: int | -0x8000_0000_0000_0000 <= x < 0x8000_0000_0000_0000

  /** An NBT value. Floating-point payloads are kept as their bit patterns:
      no rule here looks at them. */
  datatype Value =
    | Byte(byteValue: i8)
    | Short(shortValue: i16)
    | Int(intValue: i32)
    | Long(longValue: i64)
    | Float(floatBits: u32)
    | Double(doubleBits: u64)
    | ByteArray(bytes: seq<i8>)
    | String(text: string)
    | List(items: seq<Value>)
    | Compound(fields: map<string, Value>)
    | IntArray(ints: seq<i32>)
    | LongArray(longs: seq<i64>)

  // ---------------------------------------------------------------------
  // Statistics

  /** `FixStats`: how many of each kind of repair were made. */
  datatype FixStats = FixStats(
    filesProcessed: nat,
    chunksFixed: nat,
    entitiesFixed: nat,
    enchantmentsFixed: nat,
    uuidsRegenerated: nat,
    positionsFixed: nat)

  const NoFixes := FixStats(0, 0, 0, 0, 0, 0)

  /** `FixStats::merge`: the pointwise sum. */
  function Merge(a: FixStats, b: FixStats): (m: FixStats)
    ensures m.filesProcessed == a.filesProcessed + b.filesProcessed
    ensures m.chunksFixed == a.chunksFixed + b.chunksFixed
    ensures m.entitiesFixed == a.entitiesFixed + b.entitiesFixed
    ensures m.enchantmentsFixed == a.enchantmentsFixed + b.enchantmentsFixed
    ensures m.uuidsRegenerated == a.uuidsRegenerated + b.uuidsRegenerated
    ensures m.positionsFixed == a.positionsFixed + b.positionsFixed
  {
    FixStats(
      a.filesProcessed + b.filesProcessed,
      a.chunksFixed + b.chunksFixed,
      a.entitiesFixed + b.entitiesFixed,
      a.enchantmentsFixed + b.enchantmentsFixed,
      a.uuidsRegenerated + b.uuidsRegenerated,
      a.positionsFixed + b.positionsFixed)
  }

  /** Merging is a commutative monoid with the empty statistics as unit, so
      the order in which the parallel reduction combines files is irrelevant. */
  lemma MergeMonoid(a: FixStats, b: FixStats, c: FixStats)
    ensures Merge(a, NoFixes) == a && Merge(NoFixes, a) == a
    ensures Merge(a, b) == Merge(b, a)
    ensures Merge(Merge(a, b), c) == Merge(a, Merge(b, c))
  {
  }

  lemma MergeEnchantmentFixes(a: nat, b: nat)
    ensures Merge(EnchantmentFixes(a), EnchantmentFixes(b)) == EnchantmentFixes(a + b)
  {
  }

  /** The test `fix_entity` and `fix_chunk` use to decide that a sub-fix
      changed something. */
  predicate Changed(s: FixStats)
  {
    s.entitiesFixed > 0 || s.enchantmentsFixed > 0 || s.uuidsRegenerated > 0 || s.positionsFixed > 0
  }

  function EnchantmentFixes(n: nat): (s: FixStats)
    ensures Changed(s) <==> n > 0
  {
    NoFixes.(enchantmentsFixed := n)
  }

  // ---------------------------------------------------------------------
  // Enchantment level maps

  /** A level the game rejects: an integer-typed zero. */
  predicate IsZeroLevel(v: Value)
  {
    v == Int(0) || v == Short(0) || v == Byte(0)
  }

  /** The repair of one level: a zero becomes a one of the same type. */
  function RepairLevel(v: Value): (w: Value)
    ensures !IsZeroLevel(w)
    ensures !IsZeroLevel(v) ==> w == v
    ensures w.Byte? == v.Byte? && w.Short? == v.Short? && w.Int? == v.Int?
    ensures w.Compound? == v.Compound? && w.List? == v.List?
  {
    match v
    case Int(0) => Int(1)
    case Short(0) => Short(1)
    case Byte(0) => Byte(1)
    case _ => v
  }

  function RepairLevels(m: map<string, Value>): (r: map<string, Value>)
  {
    map k | k in m :: RepairLevel(m[k])
  }

  /** The names whose level is a zero. */
  function ZeroLevels(m: map<string, Value>): set<string>
  {
    set k | k in m && IsZeroLevel(m[k])
  }

  /** Repairing a level map changes exactly the zero levels, keeps every name,
      and leaves nothing for a second pass to repair. */
  lemma RepairLevelsSpec(m: map<string, Value>)
    ensures RepairLevels(m).Keys == m.Keys
    ensures forall k :: k in m && !IsZeroLevel(m[k]) ==> RepairLevels(m)[k] == m[k]
    ensures forall k :: k in m && IsZeroLevel(m[k]) ==> RepairLevels(m)[k] == RepairLevel(m[k]) != m[k]
    ensures ZeroLevels(RepairLevels(m)) == {}
    ensures RepairLevels(RepairLevels(m)) == RepairLevels(m)
  {
    var r := RepairLevels(m);
    assert r.Keys == m.Keys;
    assert forall k :: k in r ==> r[k] == RepairLevel(m[k]);
    assert forall k :: k in r ==> RepairLevel(r[k]) == r[k];
    assert ZeroLevels(r) == {} by {
      forall k | k in r
        ensures !IsZeroLevel(r[k])
      {
        assert r[k] == RepairLevel(m[k]);
      }
    }
  }

  /** `fix_enchantment_levels`: visits every entry of the map once and
      returns the number of levels raised from 0 to 1. */
  method FixEnchantmentLevels(m: map<string, Value>) returns (fixed: map<string, Value>, count: nat)
    ensures fixed == RepairLevels(m)
    ensures count == |ZeroLevels(m)|
  {
    fixed, count := m, 0;
    var todo := m.Keys;
    while todo != {}
      invariant LevelsRepairedOutside(m, fixed, todo)
      invariant count == |ZeroLevels(m) - todo|
      decreases |todo|
    {
      var k :| k in todo;
      ZeroLevelsStep(m, todo, k);
      RepairOneLevel(m, fixed, todo, k);
      if IsZeroLevel(fixed[k]) {
        fixed := fixed[k := RepairLevel(fixed[k])];
        count := count + 1;
      }
      todo := todo - {k};
    }
    RepairedEverywhere(m, fixed);
  }

  /** The state of the loop in `fix_enchantment_levels`: the names still to
      visit hold their original level, the others their repaired level. */
  ghost predicate LevelsRepairedOutside(m: map<string, Value>, fixed: map<string, Value>, todo: set<string>)
  {
    todo <= m.Keys && fixed.Keys == m.Keys &&
    forall k :: k in m ==> fixed[k] == if k in todo then m[k] else RepairLevel(m[k])
  }

  lemma RepairOneLevel(m: map<string, Value>, fixed: map<string, Value>, todo: set<string>, k: string)
    requires LevelsRepairedOutside(m, fixed, todo) && k in todo
    ensures fixed[k] == m[k]
    ensures IsZeroLevel(m[k]) ==> LevelsRepairedOutside(m, fixed[k := RepairLevel(m[k])], todo - {k})
    ensures !IsZeroLevel(m[k]) ==> LevelsRepairedOutside(m, fixed, todo - {k})
  {
  }

  lemma RepairedEverywhere(m: map<string, Value>, fixed: map<string, Value>)
    requires LevelsRepairedOutside(m, fixed, {})
    ensures fixed == RepairLevels(m)
  {
  }

  /** The zero levels already visited grow by one name exactly when the name
      visited next holds a zero level. */
  lemma ZeroLevelsStep(m: map<string, Value>, todo: set<string>, k: string)
    requires k in todo && k in m
    ensures |ZeroLevels(m) - (todo - {k})| == |ZeroLevels(m) - todo| + (if IsZeroLevel(m[k]) then 1 else 0)
  {
    var done := ZeroLevels(m) - todo;
    if IsZeroLevel(m[k]) {
      assert ZeroLevels(m) - (todo - {k}) == done + {k};
      assert k !in done;
    } else {
      assert ZeroLevels(m) - (todo - {k}) == done;
    }
  }

  // ---------------------------------------------------------------------
  // Enchantment lists

  /** An entry of an `Enchantments` list whose `lvl` is a Short zero. */
  predicate HasZeroLvl(e: Value)
  {
    e.Compound? && "lvl" in e.fields && e.fields["lvl"] == Short(0)
  }

  function RepairLvl(e: Value): (r: Value)
  {
    if HasZeroLvl(e) then Compound(e.fields["lvl" := Short(1)]) else e
  }

  function RepairLvlList(items: seq<Value>): (r: seq<Value>)
    ensures |r| == |items|
    ensures forall i :: 0 <= i < |items| ==> r[i] == RepairLvl(items[i])
  {
    seq(|items|, i requires 0 <= i < |items| => RepairLvl(items[i]))
  }

  function ZeroLvlCount(items: seq<Value>): nat
  {
    if |items| == 0 then 0
    else ZeroLvlCount(items[..|items| - 1]) + (if HasZeroLvl(items[|items| - 1]) then 1 else 0)
  }

  /** Repairing an enchantment list raises exactly the Short zero levels to 1,
      leaving every other entry, and every other level type, as it was. */
  lemma RepairLvlListSpec(items: seq<Value>)
    ensures forall i :: 0 <= i < |items| && !HasZeroLvl(items[i]) ==> RepairLvlList(items)[i] == items[i]
    ensures forall i :: 0 <= i < |items| && HasZeroLvl(items[i]) ==>
              RepairLvlList(items)[i].fields == items[i].fields["lvl" := Short(1)]
    ensures ZeroLvlCount(RepairLvlList(items)) == 0
    ensures RepairLvlList(RepairLvlList(items)) == RepairLvlList(items)
  {
    NoZeroLvlLeft(RepairLvlList(items));
  }

  lemma {:induction false} NoZeroLvlLeft(items: seq<Value>)
    requires forall i :: 0 <= i < |items| ==> !HasZeroLvl(items[i])
    ensures ZeroLvlCount(items) == 0
  {
    if |items| > 0 {
      NoZeroLvlLeft(items[..|items| - 1]);
    }
  }

  /** The loop over an `Enchantments` list in `fix_item_enchantments`. */
  method FixEnchantmentList(items: seq<Value>) returns (fixed: seq<Value>, count: nat)
    ensures fixed == RepairLvlList(items)
    ensures count == ZeroLvlCount(items)
  {
    fixed, count := [], 0;
    for i := 0 to |items|
      invariant fixed == RepairLvlList(items[..i])
      invariant count == ZeroLvlCount(items[..i])
    {
      assert items[..i + 1][..i] == items[..i];
      var e := items[i];
      if e.Compound? && "lvl" in e.fields && e.fields["lvl"] == Short(0) {
        e := Compound(e.fields["lvl" := Short(1)]);
        count := count + 1;
      }
      fixed := fixed + [e];
    }
    assert items[..|items|] == items;
  }

  // ---------------------------------------------------------------------
  // Items

  const ENCHANTMENTS_COMPONENT := "minecraft:enchantments"
  const CUSTOM_DATA_COMPONENT := "minecraft:custom_data"
  /** The key ViaVersion leaves in custom data when it translates items. */
  const VIA_VERSION_MARKER := "VV|Protocol1_20_3To1_20_5"

  /** The `minecraft:enchantments` component: its "levels" compound when it
      has one, otherwise the component itself, is a level map. */
  function RepairEnchantmentMap(em: map<string, Value>): map<string, Value>
  {
    if "levels" in em && em["levels"].Compound? then em["levels" := Compound(RepairLevels(em["levels"].fields))]
    else RepairLevels(em)
  }

  function EnchantmentMapFixes(em: map<string, Value>): nat
  {
    if "levels" in em && em["levels"].Compound? then |ZeroLevels(em["levels"].fields)|
    else |ZeroLevels(em)|
  }

  /** The `minecraft:custom_data` component: the ViaVersion marker is removed
      and its `Enchantments` list repaired. */
  function RepairCustomData(cd: map<string, Value>): map<string, Value>
  {
    var rest := cd - {VIA_VERSION_MARKER};
    if "Enchantments" in rest && rest["Enchantments"].List? then
      rest["Enchantments" := List(RepairLvlList(rest["Enchantments"].items))]
    else rest
  }

  function CustomDataFixes(cd: map<string, Value>): nat
  {
    (if VIA_VERSION_MARKER in cd then 1 else 0) +
    (if "Enchantments" in cd && cd["Enchantments"].List? then ZeroLvlCount(cd["Enchantments"].items) else 0)
  }

  /** The `components` compound of an item: both components repaired. */
  function RepairComponents(c: map<string, Value>): map<string, Value>
  {
    var c1 := if ENCHANTMENTS_COMPONENT in c && c[ENCHANTMENTS_COMPONENT].Compound? then
                c[ENCHANTMENTS_COMPONENT := Compound(RepairEnchantmentMap(c[ENCHANTMENTS_COMPONENT].fields))]
              else c;
    if CUSTOM_DATA_COMPONENT in c1 && c1[CUSTOM_DATA_COMPONENT].Compound? then
      c1[CUSTOM_DATA_COMPONENT := Compound(RepairCustomData(c1[CUSTOM_DATA_COMPONENT].fields))]
    else c1
  }

  function ComponentsFixes(c: map<string, Value>): nat
  {
    (if ENCHANTMENTS_COMPONENT in c && c[ENCHANTMENTS_COMPONENT].Compound? then
       EnchantmentMapFixes(c[ENCHANTMENTS_COMPONENT].fields) else 0) +
    (if CUSTOM_DATA_COMPONENT in c && c[CUSTOM_DATA_COMPONENT].Compound? then
       CustomDataFixes(c[CUSTOM_DATA_COMPONENT].fields) else 0)
  }

  /** An item with every enchantment repair applied. */
  function RepairItem(item: Value): Value
  {
    match item
    case Compound(d) =>
      var d1 := if "components" in d && d["components"].Compound? then
                  d["components" := Compound(RepairComponents(d["components"].fields))]
                else d;
      if "Enchantments" in d1 && d1["Enchantments"].List? then
        Compound(d1["Enchantments" := List(RepairLvlList(d1["Enchantments"].items))])
      else Compound(d1)
    case _ => item
  }

  /** The number of repairs `fix_item_enchantments` reports for an item. */
  function ItemFixes(item: Value): nat
  {
    match item
    case Compound(d) =>
      (if "components" in d && d["components"].Compound? then ComponentsFixes(d["components"].fields) else 0) +
      (if "Enchantments" in d && d["Enchantments"].List? then ZeroLvlCount(d["Enchantments"].items) else 0)
    case _ => 0
  }

  /** The enchantment component after repair has nothing left to repair. */
  lemma EnchantmentMapRepaired(em: map<string, Value>)
    ensures EnchantmentMapFixes(RepairEnchantmentMap(em)) == 0
    ensures RepairEnchantmentMap(RepairEnchantmentMap(em)) == RepairEnchantmentMap(em)
  {
    if "levels" in em && em["levels"].Compound? {
      RepairLevelsSpec(em["levels"].fields);
      assert RepairEnchantmentMap(em)["levels"] == Compound(RepairLevels(em["levels"].fields));
    } else {
      RepairLevelsSpec(em);
      var r := RepairLevels(em);
      if "levels" in em {
        assert r["levels"] == RepairLevel(em["levels"]);
        assert !r["levels"].Compound?;
      }
    }
  }

  /** The custom data after repair carries no marker and no zero levels. */
  lemma CustomDataRepaired(cd: map<string, Value>)
    ensures VIA_VERSION_MARKER !in RepairCustomData(cd)
    ensures CustomDataFixes(RepairCustomData(cd)) == 0
    ensures RepairCustomData(RepairCustomData(cd)) == RepairCustomData(cd)
  {
    var rest := cd - {VIA_VERSION_MARKER};
    if "Enchantments" in rest && rest["Enchantments"].List? {
      RepairLvlListSpec(rest["Enchantments"].items);
      var r := RepairCustomData(cd);
      assert r["Enchantments"] == List(RepairLvlList(rest["Enchantments"].items));
      assert r - {VIA_VERSION_MARKER} == r;
    } else {
      assert rest - {VIA_VERSION_MARKER} == rest;
    }
  }

  /** The components after repair have nothing left to repair. */
  lemma ComponentsRepaired(c: map<string, Value>)
    ensures ComponentsFixes(RepairComponents(c)) == 0
    ensures RepairComponents(RepairComponents(c)) == RepairComponents(c)
    ensures RepairComponents(c).Keys == c.Keys
    ensures CUSTOM_DATA_COMPONENT in c ==> RepairComponents(c)[CUSTOM_DATA_COMPONENT].Compound? == c[CUSTOM_DATA_COMPONENT].Compound?
  {
    if ENCHANTMENTS_COMPONENT in c && c[ENCHANTMENTS_COMPONENT].Compound? {
      EnchantmentMapRepaired(c[ENCHANTMENTS_COMPONENT].fields);
    }
    if CUSTOM_DATA_COMPONENT in c && c[CUSTOM_DATA_COMPONENT].Compound? {
      CustomDataRepaired(c[CUSTOM_DATA_COMPONENT].fields);
    }
  }

  /** `fix_item_enchantments` is idempotent: a repaired item comes out of a
      second pass unchanged, with no repairs reported. */
  lemma RepairItemIdempotent(item: Value)
    ensures ItemFixes(RepairItem(item)) == 0
    ensures RepairItem(RepairItem(item)) == RepairItem(item)
  {
    if item.Compound? {
      var d := item.fields;
      if "components" in d && d["components"].Compound? {
        ComponentsRepaired(d["components"].fields);
      }
      var d1 := if "components" in d && d["components"].Compound? then
                  d["components" := Compound(RepairComponents(d["components"].fields))]
                else d;
      if "Enchantments" in d1 && d1["Enchantments"].List? {
        RepairLvlListSpec(d1["Enchantments"].items);
      }
    }
  }

  /** An item without components and without an `Enchantments` list, or a
      value that is no compound, is left alone. */
  lemma RepairItemUntouched(item: Value)
    requires !item.Compound? || ("components" !in item.fields && "Enchantments" !in item.fields)
    ensures RepairItem(item) == item && ItemFixes(item) == 0
  {
  }

  /** The `components` part of `fix_item_enchantments`. */
  method FixComponents(c: map<string, Value>) returns (fixed: map<string, Value>, count: nat)
    ensures fixed == RepairComponents(c)
    ensures count == ComponentsFixes(c)
  {
    fixed, count := c, 0;
    if ENCHANTMENTS_COMPONENT in fixed && fixed[ENCHANTMENTS_COMPONENT].Compound? {
      var enchantMap := fixed[ENCHANTMENTS_COMPONENT].fields;
      var n;
      if "levels" in enchantMap && enchantMap["levels"].Compound? {
        var levels;
        levels, n := FixEnchantmentLevels(enchantMap["levels"].fields);
        enchantMap := enchantMap["levels" := Compound(levels)];
      } else {
        enchantMap, n := FixEnchantmentLevels(enchantMap);
      }
      fixed := fixed[ENCHANTMENTS_COMPONENT := Compound(enchantMap)];
      count := count + n;
    }
    if CUSTOM_DATA_COMPONENT in fixed && fixed[CUSTOM_DATA_COMPONENT].Compound? {
      var customData := fixed[CUSTOM_DATA_COMPONENT].fields;
      assert customData == c[CUSTOM_DATA_COMPONENT].fields;
      if VIA_VERSION_MARKER in customData {
        customData := customData - {VIA_VERSION_MARKER};
        count := count + 1;
      } else {
        assert customData - {VIA_VERSION_MARKER} == customData;
      }
      if "Enchantments" in customData && customData["Enchantments"].List? {
        var list, n := FixEnchantmentList(customData["Enchantments"].items);
        customData := customData["Enchantments" := List(list)];
        count := count + n;
      }
      fixed := fixed[CUSTOM_DATA_COMPONENT := Compound(customData)];
    }
  }

  /** `fix_item_enchantments`. */
  method FixItemEnchantments(item: Value) returns (fixed: Value, stats: FixStats)
    ensures fixed == RepairItem(item)
    ensures stats == EnchantmentFixes(ItemFixes(item))
  {
    fixed, stats := item, NoFixes;
    if item.Compound? {
      var itemData := item.fields;
      if "components" in itemData && itemData["components"].Compound? {
        var components, n := FixComponents(itemData["components"].fields);
        itemData := itemData["components" := Compound(components)];
        stats := stats.(enchantmentsFixed := stats.enchantmentsFixed + n);
      }
      if "Enchantments" in itemData && itemData["Enchantments"].List? {
        var list, n := FixEnchantmentList(itemData["Enchantments"].items);
        itemData := itemData["Enchantments" := List(list)];
        stats := stats.(enchantmentsFixed := stats.enchantmentsFixed + n);
      }
      fixed := Compound(itemData);
    }
  }

  // ---------------------------------------------------------------------
  // Item containers

  /** The slots of an `equipment` compound that are repaired, in order. */
  const EQUIPMENT_SLOTS: seq<string> := ["head", "chest", "legs", "feet", "mainhand", "offhand"]

  lemma EquipmentSlotsDistinct()
    ensures forall i, j :: 0 <= i < j < |EQUIPMENT_SLOTS| ==> EQUIPMENT_SLOTS[i] != EQUIPMENT_SLOTS[j]
  {
  }

  function RepairSlots(eq: map<string, Value>): (r: map<string, Value>)
  {
    map k | k in eq :: if k in EQUIPMENT_SLOTS then RepairItem(eq[k]) else eq[k]
  }

  /** The repairs reported for the given slots of an equipment compound. */
  function SlotFixes(eq: map<string, Value>, slots: seq<string>): nat
  {
    if |slots| == 0 then 0
    else SlotFixes(eq, slots[..|slots| - 1]) +
         (if slots[|slots| - 1] in eq then ItemFixes(eq[slots[|slots| - 1]]) else 0)
  }

  function RepairItemList(items: seq<Value>): (r: seq<Value>)
    ensures |r| == |items|
    ensures forall i :: 0 <= i < |items| ==> r[i] == RepairItem(items[i])
  {
    seq(|items|, i requires 0 <= i < |items| => RepairItem(items[i]))
  }

  function ItemListFixes(items: seq<Value>): nat
  {
    if |items| == 0 then 0 else ItemListFixes(items[..|items| - 1]) + ItemFixes(items[|items| - 1])
  }

  /** `fix_items_enchantments` as a function: the six slots of a compound,
      or every element of a list; any other value is left alone. */
  function RepairItems(v: Value): Value
  {
    match v
    case Compound(eq) => Compound(RepairSlots(eq))
    case List(items) => List(RepairItemList(items))
    case _ => v
  }

  function ItemsFixes(v: Value): nat
  {
    match v
    case Compound(eq) => SlotFixes(eq, EQUIPMENT_SLOTS)
    case List(items) => ItemListFixes(items)
    case _ => 0
  }

  /** Only the six named slots of an equipment compound are touched. */
  lemma RepairItemsSpec(v: Value)
    ensures RepairItems(v).Compound? == v.Compound? && RepairItems(v).List? == v.List?
    ensures v.Compound? ==> RepairItems(v).fields.Keys == v.fields.Keys
    ensures v.Compound? ==> forall k :: k in v.fields && k !in EQUIPMENT_SLOTS ==> RepairItems(v).fields[k] == v.fields[k]
    ensures v.Compound? ==> forall k :: k in v.fields && k in EQUIPMENT_SLOTS ==> RepairItems(v).fields[k] == RepairItem(v.fields[k])
    ensures !v.Compound? && !v.List? ==> RepairItems(v) == v && ItemsFixes(v) == 0
  {
  }

  lemma {:induction false} SlotFixesRepaired(eq: map<string, Value>, slots: seq<string>)
    requires forall k :: k in slots ==> k in EQUIPMENT_SLOTS
    ensures SlotFixes(RepairSlots(eq), slots) == 0
  {
    if |slots| > 0 {
      SlotFixesRepaired(eq, slots[..|slots| - 1]);
      var k := slots[|slots| - 1];
      if k in eq {
        RepairItemIdempotent(eq[k]);
      }
    }
  }

  lemma {:induction false} ItemListFixesRepaired(items: seq<Value>)
    ensures ItemListFixes(RepairItemList(items)) == 0
  {
    if |items| > 0 {
      var init := items[..|items| - 1];
      ItemListFixesRepaired(init);
      assert RepairItemList(items)[..|items| - 1] == RepairItemList(init);
      RepairItemIdempotent(items[|items| - 1]);
    }
  }

  /** `fix_items_enchantments` is idempotent. */
  lemma RepairItemsIdempotent(v: Value)
    ensures ItemsFixes(RepairItems(v)) == 0
    ensures RepairItems(RepairItems(v)) == RepairItems(v)
  {
    match v
    case Compound(eq) =>
      SlotFixesRepaired(eq, EQUIPMENT_SLOTS);
      forall k | k in eq && k in EQUIPMENT_SLOTS
        ensures RepairItem(RepairItem(eq[k])) == RepairItem(eq[k])
      {
        RepairItemIdempotent(eq[k]);
      }
      assert RepairSlots(RepairSlots(eq)) == RepairSlots(eq);
    case List(items) =>
      ItemListFixesRepaired(items);
      forall i | 0 <= i < |items|
        ensures RepairItem(RepairItem(items[i])) == RepairItem(items[i])
      {
        RepairItemIdempotent(items[i]);
      }
      assert RepairItemList(RepairItemList(items)) == RepairItemList(items);
    case _ =>
  }

  /** The loop over the slots of an equipment compound. */
  method FixSlots(eq: map<string, Value>) returns (fixed: map<string, Value>, stats: FixStats)
    ensures fixed == RepairSlots(eq)
    ensures stats == EnchantmentFixes(SlotFixes(eq, EQUIPMENT_SLOTS))
  {
    EquipmentSlotsDistinct();
    fixed, stats := eq, NoFixes;
    for i := 0 to |EQUIPMENT_SLOTS|
      invariant fixed.Keys == eq.Keys
      invariant forall k :: k in eq ==> fixed[k] == if k in EQUIPMENT_SLOTS[..i] then RepairItem(eq[k]) else eq[k]
      invariant stats == EnchantmentFixes(SlotFixes(eq, EQUIPMENT_SLOTS[..i]))
    {
      var slot := EQUIPMENT_SLOTS[i];
      assert EQUIPMENT_SLOTS[..i + 1] == EQUIPMENT_SLOTS[..i] + [slot];
      assert slot !in EQUIPMENT_SLOTS[..i];
      if slot in fixed {
        var item, itemStats := FixItemEnchantments(fixed[slot]);
        fixed := fixed[slot := item];
        stats := Merge(stats, itemStats);
      }
    }
    assert EQUIPMENT_SLOTS[..|EQUIPMENT_SLOTS|] == EQUIPMENT_SLOTS;
  }

  /** The loop over the elements of an item list. */
  method FixItemList(items: seq<Value>) returns (fixed: seq<Value>, stats: FixStats)
    ensures fixed == RepairItemList(items)
    ensures stats == EnchantmentFixes(ItemListFixes(items))
  {
    fixed, stats := [], NoFixes;
    for i := 0 to |items|
      invariant fixed == RepairItemList(items[..i])
      invariant stats == EnchantmentFixes(ItemListFixes(items[..i]))
    {
      fixed, stats := FixListItem(items, i, fixed, stats);
    }
    assert items[..|items|] == items;
  }

  /** One iteration of the loop over an item list. */
  method FixListItem(items: seq<Value>, i: nat, fixed: seq<Value>, stats: FixStats)
    returns (fixed': seq<Value>, stats': FixStats)
    requires i < |items|
    requires fixed == RepairItemList(items[..i]) && stats == EnchantmentFixes(ItemListFixes(items[..i]))
    ensures fixed' == RepairItemList(items[..i + 1]) && stats' == EnchantmentFixes(ItemListFixes(items[..i + 1]))
  {
    ItemListPush(items, i);
    var item, itemStats := FixItemEnchantments(items[i]);
    MergeEnchantmentFixes(ItemListFixes(items[..i]), ItemFixes(items[i]));
    fixed' := fixed + [item];
    stats' := Merge(stats, itemStats);
  }

  lemma ItemListPush(items: seq<Value>, i: nat)
    requires i < |items|
    ensures RepairItemList(items[..i + 1]) == RepairItemList(items[..i]) + [RepairItem(items[i])]
    ensures ItemListFixes(items[..i + 1]) == ItemListFixes(items[..i]) + ItemFixes(items[i])
  {
    assert items[..i + 1][..i] == items[..i];
  }

  /** `fix_items_enchantments`. */
  method FixItemsEnchantments(v: Value) returns (fixed: Value, stats: FixStats)
    ensures fixed == RepairItems(v)
    ensures stats == EnchantmentFixes(ItemsFixes(v))
  {
    match v {
      case Compound(eq) =>
        var slots;
        slots, stats := FixSlots(eq);
        fixed := Compound(slots);
      case List(items) =>
        var list;
        list, stats := FixItemList(items);
        fixed := List(list);
      case _ =>
        fixed, stats := v, NoFixes;
    }
  }

  // ---------------------------------------------------------------------
  // Entity deletion

  /** An item whose `components` compound holds custom data. */
  predicate HasCustomData(item: Value)
  {
    item.Compound? && "components" in item.fields && item.fields["components"].Compound? &&
    CUSTOM_DATA_COMPONENT in item.fields["components"].fields
  }

  function AnyHasCustomData(items: seq<Value>): (r: bool)
  {
    |items| > 0 && (HasCustomData(items[0]) || AnyHasCustomData(items[1..]))
  }

  /** The items an entity is searched for: the values of its `equipment`
      compound and the elements of its `ArmorItems` and `HandItems` lists. */
  predicate Carries(entity: Value, item: Value)
  {
    entity.Compound? &&
    (("equipment" in entity.fields && entity.fields["equipment"].Compound? &&
      item in entity.fields["equipment"].fields.Values) ||
     ("ArmorItems" in entity.fields && entity.fields["ArmorItems"].List? &&
      item in entity.fields["ArmorItems"].items) ||
     ("HandItems" in entity.fields && entity.fields["HandItems"].List? &&
      item in entity.fields["HandItems"].items))
  }

  lemma {:induction false} AnyHasCustomDataSpec(items: seq<Value>)
    ensures AnyHasCustomData(items) <==> exists item :: item in items && HasCustomData(item)
  {
    if |items| > 0 {
      AnyHasCustomDataSpec(items[1..]);
      assert forall item :: item in items <==> item == items[0] || item in items[1..];
    }
  }

  /** `should_delete_entity`. */
  function ShouldDeleteEntity(entity: Value): bool
  {
    match entity
    case Compound(d) =>
      ("equipment" in d && d["equipment"].Compound? &&
       exists v :: v in d["equipment"].fields.Values && HasCustomData(v)) ||
      ("ArmorItems" in d && d["ArmorItems"].List? && AnyHasCustomData(d["ArmorItems"].items)) ||
      ("HandItems" in d && d["HandItems"].List? && AnyHasCustomData(d["HandItems"].items))
    case _ => false
  }

  /** An entity is deleted exactly when some item it carries has custom
      data; a value that is not a compound is never deleted. */
  lemma ShouldDeleteEntitySpec(entity: Value)
    ensures ShouldDeleteEntity(entity) <==> exists item :: Carries(entity, item) && HasCustomData(item)
    ensures !entity.Compound? ==> !ShouldDeleteEntity(entity)
  {
    if entity.Compound? {
      var d := entity.fields;
      if "ArmorItems" in d && d["ArmorItems"].List? {
        AnyHasCustomDataSpec(d["ArmorItems"].items);
      }
      if "HandItems" in d && d["HandItems"].List? {
        AnyHasCustomDataSpec(d["HandItems"].items);
      }
    }
  }

  /** The entities `retain` keeps, in their original order. */
  function Survivors(entities: seq<Value>): (kept: seq<Value>)
    ensures |kept| <= |entities|
  {
    if |entities| == 0 then []
    else
      var last := entities[|entities| - 1];
      Survivors(entities[..|entities| - 1]) + (if ShouldDeleteEntity(last) then [] else [last])
  }

  /** `retain` removes exactly the entities to delete: every other entity
      keeps its multiplicity, and no entity to delete is left. */
  lemma SurvivorsSpec(entities: seq<Value>)
    ensures forall e :: multiset(Survivors(entities))[e] ==
              if ShouldDeleteEntity(e) then 0 else multiset(entities)[e]
    ensures forall e :: e in Survivors(entities) ==> !ShouldDeleteEntity(e)
    ensures |Survivors(entities)| + DeletedCount(entities) == |entities|
  {
    SurvivorsMultiset(entities);
    SurvivorsCount(entities);
    forall e | e in Survivors(entities)
      ensures !ShouldDeleteEntity(e)
    {
      assert multiset(Survivors(entities))[e] > 0;
    }
  }

  lemma {:induction false} SurvivorsMultiset(entities: seq<Value>)
    ensures forall e :: multiset(Survivors(entities))[e] ==
              if ShouldDeleteEntity(e) then 0 else multiset(entities)[e]
  {
    if |entities| > 0 {
      var init, last := entities[..|entities| - 1], entities[|entities| - 1];
      SurvivorsMultiset(init);
      assert entities == init + [last];
      assert multiset(entities) == multiset(init) + multiset{last};
    }
  }

  lemma {:induction false} SurvivorsCount(entities: seq<Value>)
    ensures |Survivors(entities)| + DeletedCount(entities) == |entities|
  {
    if |entities| > 0 {
      SurvivorsCount(entities[..|entities| - 1]);
    }
  }

  /** The number of entities `should_delete_entity` selects. */
  function DeletedCount(entities: seq<Value>): (n: nat)
    ensures n <= |entities|
  {
    if |entities| == 0 then 0
    else DeletedCount(entities[..|entities| - 1]) + (if ShouldDeleteEntity(entities[|entities| - 1]) then 1 else 0)
  }

  /** `entities.retain(|e| !should_delete_entity(e))`, with the number removed. */
  method RetainEntities(entities: seq<Value>) returns (kept: seq<Value>, removed: nat)
    ensures kept == Survivors(entities)
    ensures removed == DeletedCount(entities) && removed == |entities| - |kept|
  {
    kept, removed := [], 0;
    for i := 0 to |entities|
      invariant kept == Survivors(entities[..i]) && removed == DeletedCount(entities[..i])
    {
      assert entities[..i + 1][..i] == entities[..i];
      if !ShouldDeleteEntity(entities[i]) {
        kept := kept + [entities[i]];
      } else {
        removed := removed + 1;
      }
    }
    assert entities[..|entities|] == entities;
    SurvivorsSpec(entities);
  }

  // ---------------------------------------------------------------------
  // Entities

  /** The entity fields holding item containers, in the order they are fixed. */
  const ITEM_FIELDS: seq<string> := ["equipment", "ArmorItems", "HandItems"]

  function RepairItemFields(d: map<string, Value>): map<string, Value>
  {
    map k | k in d :: if k in ITEM_FIELDS then RepairItems(d[k]) else d[k]
  }

  /** The repairs reported for the given item-container fields. */
  function ItemFieldFixes(d: map<string, Value>, fields: seq<string>): nat
  {
    if |fields| == 0 then 0
    else ItemFieldFixes(d, fields[..|fields| - 1]) +
         (if fields[|fields| - 1] in d then ItemsFixes(d[fields[|fields| - 1]]) else 0)
  }

  /** The enchantment repairs an entity's own items receive: its three item
      containers and its `Item`. */
  function OwnItemFixes(d: map<string, Value>): nat
  {
    ItemFieldFixes(d, ITEM_FIELDS) + (if "Item" in d then ItemFixes(d["Item"]) else 0)
  }

  /** An entity's fields with its three item containers and its `Item` repaired. */
  function RepairOwnItems(d: map<string, Value>): map<string, Value>
  {
    var d1 := RepairItemFields(d);
    if "Item" in d then d1["Item" := RepairItem(d["Item"])] else d1
  }

  /** An entity with its items, and recursively its passengers, repaired. */
  function RepairEntity(entity: Value): Value
  {
    match entity
    case Compound(d) =>
      var d2 := RepairOwnItems(d);
      if "Passengers" in d && d["Passengers"].List? then
        Compound(d2["Passengers" := List(RepairEntities(d["Passengers"].items))])
      else Compound(d2)
    case _ => entity
  }

  function RepairEntities(entities: seq<Value>): (r: seq<Value>)
    ensures |r| == |entities|
  {
    if |entities| == 0 then []
    else RepairEntities(entities[..|entities| - 1]) + [RepairEntity(entities[|entities| - 1])]
  }

  /** The statistics `fix_entity` reports: the enchantment repairs of the
      entity's items and of its passengers, the passengers' own counts, and
      one more fixed entity when any of these changed something. */
  function EntityStats(entity: Value): FixStats
  {
    match entity
    case Compound(d) =>
      var own := OwnItemFixes(d);
      var passengers := if "Passengers" in d && d["Passengers"].List? then EntitiesStats(d["Passengers"].items) else NoFixes;
      var s := Merge(EnchantmentFixes(own), passengers);
      s.(entitiesFixed := s.entitiesFixed + (if own > 0 || Changed(passengers) then 1 else 0))
    case _ => NoFixes
  }

  function EntitiesStats(entities: seq<Value>): FixStats
  {
    if |entities| == 0 then NoFixes
    else Merge(EntitiesStats(entities[..|entities| - 1]), EntityStats(entities[|entities| - 1]))
  }

  lemma ChangedMerge(a: FixStats, b: FixStats)
    ensures Changed(Merge(a, b)) <==> Changed(a) || Changed(b)
  {
  }

  /** A list of entities reports a change exactly when one of them does. */
  lemma {:induction false} EntitiesChanged(entities: seq<Value>)
    ensures Changed(EntitiesStats(entities)) <==> exists i :: 0 <= i < |entities| && Changed(EntityStats(entities[i]))
  {
    if |entities| > 0 {
      var init := entities[..|entities| - 1];
      EntitiesChanged(init);
      ChangedMerge(EntitiesStats(init), EntityStats(entities[|entities| - 1]));
      assert forall i :: 0 <= i < |init| ==> init[i] == entities[i];
    }
  }

  /** `fix_entity` counts the entity itself exactly once when its items or
      some passenger changed, on top of what its passengers counted. */
  lemma EntityStatsSpec(entity: Value)
    requires entity.Compound?
    ensures var d := entity.fields;
      var passengers := if "Passengers" in d && d["Passengers"].List? then d["Passengers"].items else [];
      && EntityStats(entity).entitiesFixed ==
           EntitiesStats(passengers).entitiesFixed +
           (if OwnItemFixes(d) > 0 || exists i :: 0 <= i < |passengers| && Changed(EntityStats(passengers[i])) then 1 else 0)
      && EntityStats(entity).enchantmentsFixed == OwnItemFixes(d) + EntitiesStats(passengers).enchantmentsFixed
  {
    var d := entity.fields;
    var passengers := if "Passengers" in d && d["Passengers"].List? then d["Passengers"].items else [];
    EntitiesChanged(passengers);
  }

  /** The loop of `fix_entity` over its three item-container fields. */
  method FixItemFields(d: map<string, Value>) returns (fixed: map<string, Value>, stats: FixStats)
    ensures fixed == RepairItemFields(d)
    ensures stats == EnchantmentFixes(ItemFieldFixes(d, ITEM_FIELDS))
  {
    fixed, stats := d, NoFixes;
    for i := 0 to |ITEM_FIELDS|
      invariant fixed.Keys == d.Keys
      invariant forall k :: k in d ==> fixed[k] == if k in ITEM_FIELDS[..i] then RepairItems(d[k]) else d[k]
      invariant stats == EnchantmentFixes(ItemFieldFixes(d, ITEM_FIELDS[..i]))
    {
      var field := ITEM_FIELDS[i];
      assert ITEM_FIELDS[..i + 1] == ITEM_FIELDS[..i] + [field];
      assert field !in ITEM_FIELDS[..i];
      if field in fixed {
        var items, itemStats := FixItemsEnchantments(fixed[field]);
        fixed := fixed[field := items];
        MergeEnchantmentFixes(ItemFieldFixes(d, ITEM_FIELDS[..i]), ItemsFixes(d[field]));
        stats := Merge(stats, itemStats);
      }
    }
    assert ITEM_FIELDS[..|ITEM_FIELDS|] == ITEM_FIELDS;
  }

  /** The part of `fix_entity` that repairs the entity's own items. */
  method FixOwnItems(d: map<string, Value>) returns (fixed: map<string, Value>, stats: FixStats, modified: bool)
    ensures fixed == RepairOwnItems(d)
    ensures stats == EnchantmentFixes(OwnItemFixes(d))
    ensures modified <==> OwnItemFixes(d) > 0
  {
    var itemStats;
    fixed, itemStats := FixItemFields(d);
    stats := itemStats;
    modified := itemStats.enchantmentsFixed > 0;
    if "Item" in fixed {
      var item, stats' := FixItemEnchantments(fixed["Item"]);
      fixed := fixed["Item" := item];
      MergeEnchantmentFixes(ItemFieldFixes(d, ITEM_FIELDS), ItemFixes(d["Item"]));
      stats := Merge(stats, stats');
      if stats'.enchantmentsFixed > 0 {
        modified := true;
      }
    }
  }

  /** `fix_entity`, without the UUID and position repairs. */
  method FixEntity(entity: Value) returns (fixed: Value, stats: FixStats)
    ensures fixed == RepairEntity(entity)
    ensures stats == EntityStats(entity)
    decreases entity, 1
  {
    if !entity.Compound? {
      return entity, NoFixes;
    }
    var d := entity.fields;
    var entityData, entityModified;
    entityData, stats, entityModified := FixOwnItems(d);
    var passengerStats := NoFixes;
    if "Passengers" in entityData && entityData["Passengers"].List? {
      var passengers, changed;
      passengers, passengerStats, changed := FixEntities(d["Passengers"].items);
      entityData := entityData["Passengers" := List(passengers)];
      if changed {
        entityModified := true;
      }
    }
    stats := Merge(stats, passengerStats);
    if entityModified {
      stats := stats.(entitiesFixed := stats.entitiesFixed + 1);
    }
    fixed := Compound(entityData);
  }

  /** The loop over a list of entities: each is fixed, its statistics merged,
      and whether any of them changed is reported. */
  method FixEntities(entities: seq<Value>) returns (fixed: seq<Value>, stats: FixStats, changed: bool)
    ensures fixed == RepairEntities(entities)
    ensures stats == EntitiesStats(entities)
    ensures changed == Changed(stats)
    decreases entities, 0
  {
    fixed, stats, changed := [], NoFixes, false;
    for i := 0 to |entities|
      invariant fixed == RepairEntities(entities[..i])
      invariant stats == EntitiesStats(entities[..i])
      invariant changed == Changed(stats)
    {
      assert entities[..i + 1][..i] == entities[..i];
      var entity, entityStats := FixEntity(entities[i]);
      fixed := fixed + [entity];
      ChangedMerge(stats, entityStats);
      stats := Merge(stats, entityStats);
      if Changed(entityStats) {
        changed := true;
      }
    }
    assert entities[..|entities|] == entities;
  }

  /** `fix_entity` touches only the three item containers, `Item` and the
      `Passengers` list; every other field, and every name, is kept. */
  lemma RepairEntityFields(entity: Value)
    ensures RepairEntity(entity).Compound? == entity.Compound?
    ensures !entity.Compound? ==> RepairEntity(entity) == entity
    ensures entity.Compound? ==>
      var d, r := entity.fields, RepairEntity(entity).fields;
      && r.Keys == d.Keys
      && (forall k :: k in d && k in ITEM_FIELDS ==> r[k] == RepairItems(d[k]))
      && ("Item" in d ==> r["Item"] == RepairItem(d["Item"]))
      && ("Passengers" in d && d["Passengers"].List? ==> r["Passengers"] == List(RepairEntities(d["Passengers"].items)))
      && ("Passengers" in d && !d["Passengers"].List? ==> r["Passengers"] == d["Passengers"])
      && (forall k :: k in d && k !in ITEM_FIELDS && k != "Item" && k != "Passengers" ==> r[k] == d[k])
  {
    if entity.Compound? {
      var d := entity.fields;
      RepairOwnItemsSpec(d);
      var own := RepairOwnItems(d);
      if "Passengers" in d && d["Passengers"].List? {
        assert RepairEntity(entity) == Compound(own["Passengers" := List(RepairEntities(d["Passengers"].items))]);
      } else {
        assert RepairEntity(entity) == Compound(own);
      }
    }
  }

  lemma RepairOwnItemsSpec(d: map<string, Value>)
    ensures var r := RepairOwnItems(d);
      && r.Keys == d.Keys
      && (forall k :: k in d && k in ITEM_FIELDS ==> r[k] == RepairItems(d[k]))
      && ("Item" in d ==> r["Item"] == RepairItem(d["Item"]))
      && (forall k :: k in d && k !in ITEM_FIELDS && k != "Item" ==> r[k] == d[k])
  {
    assert "Item" !in ITEM_FIELDS;
  }

  // ---------------------------------------------------------------------
  // A fix that reports nothing changes nothing. `fix_chunk` writes the
  // chunk back only when some fix reported a change, so these lemmas are
  // what makes skipping the write safe.

  lemma QuietLevels(m: map<string, Value>)
    requires ZeroLevels(m) == {}
    ensures RepairLevels(m) == m
  {
    forall k | k in m
      ensures RepairLevels(m)[k] == m[k]
    {
      assert k !in ZeroLevels(m);
    }
  }

  lemma QuietEnchantmentMap(em: map<string, Value>)
    requires EnchantmentMapFixes(em) == 0
    ensures RepairEnchantmentMap(em) == em
  {
    if "levels" in em && em["levels"].Compound? {
      QuietLevels(em["levels"].fields);
    } else {
      QuietLevels(em);
    }
  }

  lemma {:induction false} ZeroLvlCountZero(items: seq<Value>)
    requires ZeroLvlCount(items) == 0
    ensures forall i :: 0 <= i < |items| ==> !HasZeroLvl(items[i])
  {
    if |items| > 0 {
      ZeroLvlCountZero(items[..|items| - 1]);
      assert forall i :: 0 <= i < |items| - 1 ==> items[..|items| - 1][i] == items[i];
    }
  }

  lemma QuietCustomData(cd: map<string, Value>)
    requires CustomDataFixes(cd) == 0
    ensures RepairCustomData(cd) == cd
  {
    assert cd - {VIA_VERSION_MARKER} == cd;
    if "Enchantments" in cd && cd["Enchantments"].List? {
      ZeroLvlCountZero(cd["Enchantments"].items);
      assert RepairLvlList(cd["Enchantments"].items) == cd["Enchantments"].items;
    }
  }

  lemma QuietComponents(c: map<string, Value>)
    requires ComponentsFixes(c) == 0
    ensures RepairComponents(c) == c
  {
    if ENCHANTMENTS_COMPONENT in c && c[ENCHANTMENTS_COMPONENT].Compound? {
      QuietEnchantmentMap(c[ENCHANTMENTS_COMPONENT].fields);
    }
    if CUSTOM_DATA_COMPONENT in c && c[CUSTOM_DATA_COMPONENT].Compound? {
      QuietCustomData(c[CUSTOM_DATA_COMPONENT].fields);
    }
  }

  /** An item for which `fix_item_enchantments` reports no repair is unchanged. */
  lemma QuietItem(item: Value)
    requires ItemFixes(item) == 0
    ensures RepairItem(item) == item
  {
    if item.Compound? {
      var d := item.fields;
      if "components" in d && d["components"].Compound? {
        QuietComponents(d["components"].fields);
      }
      if "Enchantments" in d && d["Enchantments"].List? {
        ZeroLvlCountZero(d["Enchantments"].items);
        assert RepairLvlList(d["Enchantments"].items) == d["Enchantments"].items;
      }
    }
  }

  lemma {:induction false} SlotFixesZero(eq: map<string, Value>, slots: seq<string>)
    requires SlotFixes(eq, slots) == 0
    ensures forall k :: k in slots && k in eq ==> ItemFixes(eq[k]) == 0
  {
    if |slots| > 0 {
      SlotFixesZero(eq, slots[..|slots| - 1]);
      assert forall k :: k in slots ==> k in slots[..|slots| - 1] || k == slots[|slots| - 1];
    }
  }

  lemma {:induction false} ItemListFixesZero(items: seq<Value>)
    requires ItemListFixes(items) == 0
    ensures forall i :: 0 <= i < |items| ==> ItemFixes(items[i]) == 0
  {
    if |items| > 0 {
      ItemListFixesZero(items[..|items| - 1]);
      assert forall i :: 0 <= i < |items| - 1 ==> items[..|items| - 1][i] == items[i];
    }
  }

  lemma QuietItems(v: Value)
    requires ItemsFixes(v) == 0
    ensures RepairItems(v) == v
  {
    match v
    case Compound(eq) =>
      SlotFixesZero(eq, EQUIPMENT_SLOTS);
      forall k | k in eq && k in EQUIPMENT_SLOTS
        ensures RepairItem(eq[k]) == eq[k]
      {
        QuietItem(eq[k]);
      }
      assert RepairSlots(eq) == eq;
    case List(items) =>
      ItemListFixesZero(items);
      forall i | 0 <= i < |items|
        ensures RepairItem(items[i]) == items[i]
      {
        QuietItem(items[i]);
      }
      assert RepairItemList(items) == items;
    case _ =>
  }

  lemma {:induction false} ItemFieldFixesZero(d: map<string, Value>, fields: seq<string>)
    ensures ItemFieldFixes(d, fields) == 0 <==> forall k :: k in fields && k in d ==> ItemsFixes(d[k]) == 0
  {
    if |fields| > 0 {
      ItemFieldFixesZero(d, fields[..|fields| - 1]);
      assert forall k :: k in fields <==> k in fields[..|fields| - 1] || k == fields[|fields| - 1];
    }
  }

  lemma QuietOwnItems(d: map<string, Value>)
    requires OwnItemFixes(d) == 0
    ensures RepairOwnItems(d) == d
  {
    ItemFieldFixesZero(d, ITEM_FIELDS);
    forall k | k in d && k in ITEM_FIELDS
      ensures RepairItems(d[k]) == d[k]
    {
      QuietItems(d[k]);
    }
    assert RepairItemFields(d) == d;
    if "Item" in d {
      QuietItem(d["Item"]);
    }
  }

  /** An entity for which `fix_entity` reports no change is unchanged. */
  lemma {:induction false} QuietEntity(entity: Value)
    requires !Changed(EntityStats(entity))
    ensures RepairEntity(entity) == entity
    decreases entity, 1
  {
    if entity.Compound? {
      var d := entity.fields;
      QuietEntityParts(entity);
      QuietOwnItems(d);
      if "Passengers" in d && d["Passengers"].List? {
        QuietEntities(d["Passengers"].items);
        assert RepairOwnItems(d)["Passengers" := d["Passengers"]] == d;
      }
    }
  }

  lemma QuietEntitiesParts(entities: seq<Value>)
    requires |entities| > 0 && !Changed(EntitiesStats(entities))
    ensures !Changed(EntitiesStats(entities[..|entities| - 1]))
    ensures !Changed(EntityStats(entities[|entities| - 1]))
  {
    ChangedMerge(EntitiesStats(entities[..|entities| - 1]), EntityStats(entities[|entities| - 1]));
  }

  /** An entity reports no change only when neither its own items nor its
      passengers do. */
  lemma QuietEntityParts(entity: Value)
    requires entity.Compound? && !Changed(EntityStats(entity))
    ensures OwnItemFixes(entity.fields) == 0
    ensures "Passengers" in entity.fields && entity.fields["Passengers"].List? ==>
              !Changed(EntitiesStats(entity.fields["Passengers"].items))
  {
  }

  lemma {:induction false} QuietEntities(entities: seq<Value>)
    requires !Changed(EntitiesStats(entities))
    ensures RepairEntities(entities) == entities
    decreases entities, 0
  {
    if |entities| > 0 {
      var init, last := entities[..|entities| - 1], entities[|entities| - 1];
      assert entities == init + [last];
      QuietEntitiesParts(entities);
      QuietEntities(init);
      QuietEntity(last);
      assert RepairEntities(entities) == RepairEntities(init) + [RepairEntity(last)];
    }
  }

  // ---------------------------------------------------------------------
  // A repaired entity has nothing left to repair

  lemma RepairedOwnItems(d: map<string, Value>)
    ensures OwnItemFixes(RepairOwnItems(d)) == 0
  {
    var r := RepairOwnItems(d);
    forall k | k in ITEM_FIELDS && k in r
      ensures ItemsFixes(r[k]) == 0
    {
      RepairItemsIdempotent(d[k]);
    }
    ItemFieldFixesZero(r, ITEM_FIELDS);
    if "Item" in d {
      RepairItemIdempotent(d["Item"]);
    }
  }

  /** The own-item repairs of an entity depend on its item fields only. */
  lemma OwnItemFixesFrame(d: map<string, Value>, r: map<string, Value>)
    requires forall k :: k in ITEM_FIELDS || k == "Item" ==> (k in d <==> k in r) && (k in d ==> d[k] == r[k])
    ensures OwnItemFixes(d) == OwnItemFixes(r)
  {
    ItemFieldFixesFrame(d, r, ITEM_FIELDS);
  }

  /** Replacing the passengers does not change the own-item repairs. */
  lemma PassengersOutsideOwnItems(d: map<string, Value>, passengers: Value)
    ensures OwnItemFixes(d["Passengers" := passengers]) == OwnItemFixes(d)
  {
    var r := d["Passengers" := passengers];
    forall k | k in ITEM_FIELDS || k == "Item"
      ensures (k in d <==> k in r) && (k in d ==> d[k] == r[k])
    {
      assert k != "Passengers";
    }
    OwnItemFixesFrame(d, r);
  }

  lemma EntityStatsQuiet(d: map<string, Value>)
    requires OwnItemFixes(d) == 0
    requires "Passengers" in d && d["Passengers"].List? ==> !Changed(EntitiesStats(d["Passengers"].items))
    ensures !Changed(EntityStats(Compound(d)))
  {
    var passengers := if "Passengers" in d && d["Passengers"].List? then EntitiesStats(d["Passengers"].items) else NoFixes;
    ChangedMerge(EnchantmentFixes(0), passengers);
    assert EntityStats(Compound(d)) == Merge(EnchantmentFixes(0), passengers);
  }

  lemma {:induction false} ItemFieldFixesFrame(d: map<string, Value>, r: map<string, Value>, fields: seq<string>)
    requires forall k :: k in fields ==> (k in d <==> k in r) && (k in d ==> d[k] == r[k])
    ensures ItemFieldFixes(d, fields) == ItemFieldFixes(r, fields)
  {
    if |fields| > 0 {
      ItemFieldFixesFrame(d, r, fields[..|fields| - 1]);
    }
  }

  /** A second `fix_entity` on a fixed entity reports no change. */
  lemma {:induction false} RepairedEntity(entity: Value)
    ensures !Changed(EntityStats(RepairEntity(entity)))
    decreases entity, 1
  {
    if entity.Compound? {
      var d := entity.fields;
      var own := RepairOwnItems(d);
      RepairedOwnItems(d);
      if "Passengers" in d && d["Passengers"].List? {
        var ps := d["Passengers"].items;
        RepairedEntities(ps);
        var r := own["Passengers" := List(RepairEntities(ps))];
        PassengersOutsideOwnItems(own, List(RepairEntities(ps)));
        assert r["Passengers"].items == RepairEntities(ps);
        EntityStatsQuiet(r);
        assert RepairEntity(entity) == Compound(r);
      } else {
        EntityStatsQuiet(own);
        assert RepairEntity(entity) == Compound(own);
      }
    }
  }

  lemma {:induction false} RepairedEntities(entities: seq<Value>)
    ensures !Changed(EntitiesStats(RepairEntities(entities)))
    decreases entities, 0
  {
    if |entities| > 0 {
      var init, last := entities[..|entities| - 1], entities[|entities| - 1];
      var r := RepairEntities(entities);
      RepairedEntities(init);
      RepairedEntity(last);
      assert r[..|r| - 1] == RepairEntities(init);
      ChangedMerge(EntitiesStats(RepairEntities(init)), EntityStats(RepairEntity(last)));
    }
  }

  /** `fix_entity` is idempotent: a fixed entity, passengers included, is
      left unchanged by a second pass, which reports no change. */
  lemma RepairEntityIdempotent(entity: Value)
    ensures !Changed(EntityStats(RepairEntity(entity)))
    ensures RepairEntity(RepairEntity(entity)) == RepairEntity(entity)
  {
    RepairedEntity(entity);
    QuietEntity(RepairEntity(entity));
  }

  lemma RepairEntitiesIdempotent(entities: seq<Value>)
    ensures !Changed(EntitiesStats(RepairEntities(entities)))
    ensures RepairEntities(RepairEntities(entities)) == RepairEntities(entities)
  {
    RepairedEntities(entities);
    QuietEntities(RepairEntities(entities));
  }

  // ---------------------------------------------------------------------
  // Repairs do not change which entities are deleted

  /** The repair of an item keeps its custom-data component, so it does not
      change whether the item marks its carrier for deletion. */
  lemma RepairKeepsCustomData(item: Value)
    ensures HasCustomData(RepairItem(item)) == HasCustomData(item)
  {
    if item.Compound? && "components" in item.fields && item.fields["components"].Compound? {
      ComponentsRepaired(item.fields["components"].fields);
    }
  }

  lemma SlotsKeepCustomData(eq: map<string, Value>)
    ensures (exists v :: v in RepairSlots(eq).Values && HasCustomData(v)) <==>
            (exists v :: v in eq.Values && HasCustomData(v))
  {
    var r := RepairSlots(eq);
    if v :| v in eq.Values && HasCustomData(v) {
      var k :| k in eq && eq[k] == v;
      RepairKeepsCustomData(v);
      assert r[k] in r.Values;
    }
    if v :| v in r.Values && HasCustomData(v) {
      var k :| k in r && r[k] == v;
      RepairKeepsCustomData(eq[k]);
      assert eq[k] in eq.Values;
    }
  }

  lemma ListKeepsCustomData(items: seq<Value>)
    ensures AnyHasCustomData(RepairItemList(items)) == AnyHasCustomData(items)
  {
    var r := RepairItemList(items);
    AnyHasCustomDataSpec(items);
    AnyHasCustomDataSpec(r);
    if item :| item in items && HasCustomData(item) {
      var i :| 0 <= i < |items| && items[i] == item;
      RepairKeepsCustomData(item);
      assert r[i] in r;
    }
    if item :| item in r && HasCustomData(item) {
      var i :| 0 <= i < |r| && r[i] == item;
      RepairKeepsCustomData(items[i]);
      assert items[i] in items;
    }
  }

  lemma ItemsKeepCustomData(v: Value)
    ensures RepairItems(v).Compound? == v.Compound? && RepairItems(v).List? == v.List?
    ensures v.Compound? ==> ((exists w :: w in RepairItems(v).fields.Values && HasCustomData(w)) <==>
                             (exists w :: w in v.fields.Values && HasCustomData(w)))
    ensures v.List? ==> AnyHasCustomData(RepairItems(v).items) == AnyHasCustomData(v.items)
  {
    match v
    case Compound(eq) => SlotsKeepCustomData(eq);
    case List(items) => ListKeepsCustomData(items);
    case _ =>
  }

  /** Fixing an entity does not change whether `should_delete_entity`
      selects it. */
  lemma RepairKeepsDeletion(entity: Value)
    ensures ShouldDeleteEntity(RepairEntity(entity)) == ShouldDeleteEntity(entity)
  {
    RepairEntityFields(entity);
    if entity.Compound? {
      var d, r := entity.fields, RepairEntity(entity).fields;
      FieldKeepsCustomData(d, r, "equipment");
      FieldKeepsCustomData(d, r, "ArmorItems");
      FieldKeepsCustomData(d, r, "HandItems");
    }
  }

  lemma FieldKeepsCustomData(d: map<string, Value>, r: map<string, Value>, k: string)
    requires k in d <==> k in r
    requires k in d ==> r[k] == RepairItems(d[k])
    ensures (k in d && d[k].Compound? && exists w :: w in d[k].fields.Values && HasCustomData(w)) <==>
            (k in r && r[k].Compound? && exists w :: w in r[k].fields.Values && HasCustomData(w))
    ensures (k in d && d[k].List? && AnyHasCustomData(d[k].items)) <==>
            (k in r && r[k].List? && AnyHasCustomData(r[k].items))
  {
    if k in d {
      ItemsKeepCustomData(d[k]);
    }
  }

  /** No survivor of `retain` is selected for deletion once fixed. */
  lemma {:induction false} RepairedSurvivorsSurvive(entities: seq<Value>)
    ensures Survivors(RepairEntities(Survivors(entities))) == RepairEntities(Survivors(entities))
    ensures DeletedCount(RepairEntities(Survivors(entities))) == 0
  {
    SurvivorsSpec(entities);
    var kept := Survivors(entities);
    NothingToDelete(RepairEntities(kept), kept);
  }

  lemma {:induction false} NothingToDelete(fixed: seq<Value>, kept: seq<Value>)
    requires fixed == RepairEntities(kept)
    requires forall e :: e in kept ==> !ShouldDeleteEntity(e)
    ensures Survivors(fixed) == fixed && DeletedCount(fixed) == 0
    decreases |kept|
  {
    if |kept| > 0 {
      var init, last := kept[..|kept| - 1], kept[|kept| - 1];
      assert forall e :: e in init ==> e in kept;
      NothingToDelete(RepairEntities(init), init);
      RepairKeepsDeletion(last);
      assert fixed[..|fixed| - 1] == RepairEntities(init);
    }
  }

  // ---------------------------------------------------------------------
  // Chunks

  /** The two spellings of a chunk's entity list, in the order they are fixed. */
  const ENTITY_LISTS: seq<string> := ["Entities", "entities"]

  /** An entity list after `fix_chunk`: the entities to delete are dropped
      and every other one is fixed. */
  function RepairEntityList(entities: seq<Value>): seq<Value>
  {
    RepairEntities(Survivors(entities))
  }

  /** The statistics of one entity list: each deleted entity counts as a
      fixed entity, then the fixed survivors' statistics are added. */
  function EntityListStats(entities: seq<Value>): FixStats
  {
    Merge(NoFixes.(entitiesFixed := DeletedCount(entities)), EntitiesStats(Survivors(entities)))
  }

  function RepairChunkFields(c: map<string, Value>): map<string, Value>
  {
    map k | k in c :: if k in ENTITY_LISTS && c[k].List? then List(RepairEntityList(c[k].items)) else c[k]
  }

  function ChunkFieldStats(c: map<string, Value>, fields: seq<string>): FixStats
  {
    if |fields| == 0 then NoFixes
    else
      var k := fields[|fields| - 1];
      Merge(ChunkFieldStats(c, fields[..|fields| - 1]),
            if k in c && c[k].List? then EntityListStats(c[k].items) else NoFixes)
  }

  /** The NBT of a chunk after `fix_chunk`; a root that is not a compound is
      left alone. */
  function RepairChunk(nbt: Value): Value
  {
    match nbt
    case Compound(c) => Compound(RepairChunkFields(c))
    case _ => nbt
  }

  function ChunkStats(nbt: Value): FixStats
  {
    match nbt
    case Compound(c) => ChunkFieldStats(c, ENTITY_LISTS)
    case _ => NoFixes
  }

  /** One entity list of `fix_chunk`: `retain`, then `fix_entity` on each
      survivor; `modified` is the flag the source raises. */
  method FixEntityList(entities: seq<Value>) returns (fixed: seq<Value>, stats: FixStats, modified: bool)
    ensures fixed == RepairEntityList(entities)
    ensures stats == EntityListStats(entities)
    ensures modified == Changed(stats)
  {
    var kept, deleted := RetainEntities(entities);
    stats, modified := NoFixes, false;
    if deleted > 0 {
      stats := stats.(entitiesFixed := stats.entitiesFixed + deleted);
      modified := true;
    }
    var entityStats, changed;
    fixed, entityStats, changed := FixEntities(kept);
    ChangedMerge(stats, entityStats);
    stats := Merge(stats, entityStats);
    if changed {
      modified := true;
    }
  }

  /** `fix_chunk` on the parsed NBT of a chunk. The chunk is rebuilt from
      the edited tree only when `modified` is set; `chunk` is what the chunk
      holds afterwards. */
  method FixChunk(nbt: Value) returns (chunk: Value, stats: FixStats, modified: bool)
    ensures chunk == RepairChunk(nbt)
    ensures stats == ChunkStats(nbt)
    ensures modified == Changed(stats)
  {
    stats, modified := NoFixes, false;
    var tree := nbt;
    if nbt.Compound? {
      var fixed;
      fixed, stats, modified := FixChunkLists(nbt.fields);
      tree := Compound(fixed);
    }
    chunk := nbt;
    if modified {
      chunk := tree;
    } else {
      QuietChunk(nbt);
    }
  }

  /** The loop of `fix_chunk` over the two entity-list names. */
  method FixChunkLists(c: map<string, Value>) returns (fixed: map<string, Value>, stats: FixStats, modified: bool)
    ensures fixed == RepairChunkFields(c)
    ensures stats == ChunkFieldStats(c, ENTITY_LISTS)
    ensures modified == Changed(stats)
  {
    fixed, stats, modified := c, NoFixes, false;
    for i := 0 to |ENTITY_LISTS|
      invariant ListsRepairedUpTo(c, fixed, i)
      invariant stats == ChunkFieldStats(c, ENTITY_LISTS[..i])
      invariant modified == Changed(stats)
    {
      fixed, stats, modified := FixChunkList(c, fixed, i, stats, modified);
    }
    assert ENTITY_LISTS[..|ENTITY_LISTS|] == ENTITY_LISTS;
    ListsRepairedEverywhere(c, fixed);
  }

  /** The state of the loop in `fix_chunk`: the first `n` list names are
      repaired, every other field still holds its original value. */
  ghost predicate ListsRepairedUpTo(c: map<string, Value>, fixed: map<string, Value>, n: nat)
  {
    n <= |ENTITY_LISTS| && fixed.Keys == c.Keys &&
    forall k :: k in c ==> fixed[k] == if k in ENTITY_LISTS[..n] && c[k].List? then List(RepairEntityList(c[k].items)) else c[k]
  }

  lemma ListsRepairedEverywhere(c: map<string, Value>, fixed: map<string, Value>)
    requires ListsRepairedUpTo(c, fixed, |ENTITY_LISTS|)
    ensures fixed == RepairChunkFields(c)
  {
    assert ENTITY_LISTS[..|ENTITY_LISTS|] == ENTITY_LISTS;
  }

  lemma ListsRepairedStep(c: map<string, Value>, fixed: map<string, Value>, i: nat)
    requires i < |ENTITY_LISTS| && ListsRepairedUpTo(c, fixed, i)
    ensures var field := ENTITY_LISTS[i];
      && (field in fixed <==> field in c) && (field in c ==> fixed[field] == c[field])
      && ListsRepairedUpTo(c, if field in c && c[field].List? then fixed[field := List(RepairEntityList(c[field].items))] else fixed, i + 1)
  {
    var field := ENTITY_LISTS[i];
    assert field !in ENTITY_LISTS[..i];
    assert forall k :: k in ENTITY_LISTS[..i + 1] <==> k in ENTITY_LISTS[..i] || k == field;
  }

  lemma ChunkFieldStatsStep(c: map<string, Value>, i: nat)
    requires i < |ENTITY_LISTS|
    ensures var field := ENTITY_LISTS[i];
      ChunkFieldStats(c, ENTITY_LISTS[..i + 1]) ==
        Merge(ChunkFieldStats(c, ENTITY_LISTS[..i]), if field in c && c[field].List? then EntityListStats(c[field].items) else NoFixes)
  {
    assert ENTITY_LISTS[..i + 1] == ENTITY_LISTS[..i] + [ENTITY_LISTS[i]];
    ChunkFieldStatsSnoc(c, ENTITY_LISTS[..i], ENTITY_LISTS[i]);
  }

  lemma ChunkFieldStatsSnoc(c: map<string, Value>, fields: seq<string>, k: string)
    ensures ChunkFieldStats(c, fields + [k]) ==
              Merge(ChunkFieldStats(c, fields), if k in c && c[k].List? then EntityListStats(c[k].items) else NoFixes)
  {
    assert (fields + [k])[..|fields|] == fields;
  }

  /** One turn of the loop in `fix_chunk`. */
  method FixChunkList(c: map<string, Value>, fixed: map<string, Value>, i: nat, stats: FixStats, modified: bool)
    returns (fixed': map<string, Value>, stats': FixStats, modified': bool)
    requires i < |ENTITY_LISTS| && ListsRepairedUpTo(c, fixed, i)
    requires stats == ChunkFieldStats(c, ENTITY_LISTS[..i]) && modified == Changed(stats)
    ensures ListsRepairedUpTo(c, fixed', i + 1)
    ensures stats' == ChunkFieldStats(c, ENTITY_LISTS[..i + 1]) && modified' == Changed(stats')
  {
    var field := ENTITY_LISTS[i];
    ListsRepairedStep(c, fixed, i);
    ChunkFieldStatsStep(c, i);
    fixed', stats', modified' := fixed, stats, modified;
    if field in fixed && fixed[field].List? {
      var list, listStats', listModified := FixEntityList(fixed[field].items);
      fixed' := fixed[field := List(list)];
      ChangedMerge(stats, listStats');
      stats' := Merge(stats, listStats');
      modified' := modified || listModified;
    } else {
      MergeMonoid(stats, stats, stats);
    }
  }

  lemma {:induction false} DeletedNone(entities: seq<Value>)
    requires DeletedCount(entities) == 0
    ensures Survivors(entities) == entities
  {
    if |entities| > 0 {
      DeletedNone(entities[..|entities| - 1]);
    }
  }

  /** A chunk reports a change exactly when one of its entity lists does. */
  lemma {:induction false} ChunkFieldStatsQuiet(c: map<string, Value>, fields: seq<string>)
    ensures !Changed(ChunkFieldStats(c, fields)) <==>
            forall k :: k in fields && k in c && c[k].List? ==> !Changed(EntityListStats(c[k].items))
  {
    if |fields| > 0 {
      var k := fields[|fields| - 1];
      ChangedMerge(ChunkFieldStats(c, fields[..|fields| - 1]),
                   if k in c && c[k].List? then EntityListStats(c[k].items) else NoFixes);
      ChunkFieldStatsQuiet(c, fields[..|fields| - 1]);
      assert forall j :: j in fields <==> j in fields[..|fields| - 1] || j == k;
    }
  }

  lemma QuietEntityList(entities: seq<Value>)
    requires !Changed(EntityListStats(entities))
    ensures RepairEntityList(entities) == entities
  {
    ChangedMerge(NoFixes.(entitiesFixed := DeletedCount(entities)), EntitiesStats(Survivors(entities)));
    DeletedNone(entities);
    QuietEntities(entities);
  }

  /** A chunk for which `fix_chunk` reports no change is unchanged, so not
      writing it back loses nothing. */
  lemma QuietChunk(nbt: Value)
    requires !Changed(ChunkStats(nbt))
    ensures RepairChunk(nbt) == nbt
  {
    if nbt.Compound? {
      var c := nbt.fields;
      forall k | k in c
        ensures RepairChunkFields(c)[k] == c[k]
      {
        if k in ENTITY_LISTS && c[k].List? {
          ChunkFieldStatsQuiet(c, ENTITY_LISTS);
          QuietEntityList(c[k].items);
        }
      }
      assert RepairChunkFields(c) == c;
    }
  }

  /** `fix_chunk` keeps every field of the chunk but the two entity lists;
      each list loses exactly its entities to delete, and the others are
      fixed in their original order. */
  lemma RepairChunkSpec(nbt: Value)
    ensures RepairChunk(nbt).Compound? == nbt.Compound?
    ensures !nbt.Compound? ==> RepairChunk(nbt) == nbt && !Changed(ChunkStats(nbt))
    ensures nbt.Compound? ==>
      var c, r := nbt.fields, RepairChunk(nbt).fields;
      && r.Keys == c.Keys
      && (forall k :: k in c && (k !in ENTITY_LISTS || !c[k].List?) ==> r[k] == c[k])
      && (forall k :: k in c && k in ENTITY_LISTS && c[k].List? ==>
            && r[k] == List(RepairEntities(Survivors(c[k].items)))
            && |r[k].items| + DeletedCount(c[k].items) == |c[k].items|
            && forall e :: e in r[k].items ==> !ShouldDeleteEntity(e))
  {
    if nbt.Compound? {
      var c, r := nbt.fields, RepairChunk(nbt).fields;
      forall k | k in c && k in ENTITY_LISTS && c[k].List?
        ensures |r[k].items| + DeletedCount(c[k].items) == |c[k].items|
        ensures forall e :: e in r[k].items ==> !ShouldDeleteEntity(e)
      {
        SurvivorsSpec(c[k].items);
        RepairedSurvivorsSurvive(c[k].items);
        SurvivorsSpec(r[k].items);
      }
    }
  }

  /** A fixed entity list has nothing left to delete or fix. */
  lemma RepairedEntityList(entities: seq<Value>)
    ensures !Changed(EntityListStats(RepairEntityList(entities)))
  {
    var fixed := RepairEntityList(entities);
    RepairedSurvivorsSurvive(entities);
    RepairEntitiesIdempotent(Survivors(entities));
    ChangedMerge(NoFixes.(entitiesFixed := DeletedCount(fixed)), EntitiesStats(Survivors(fixed)));
  }

  /** `fix_chunk` is idempotent: a fixed chunk is left as it is by a second
      pass, which reports no change and so does not rewrite it. */
  lemma RepairChunkIdempotent(nbt: Value)
    ensures !Changed(ChunkStats(RepairChunk(nbt)))
    ensures RepairChunk(RepairChunk(nbt)) == RepairChunk(nbt)
  {
    if nbt.Compound? {
      var c := nbt.fields;
      var r := RepairChunkFields(c);
      forall k | k in ENTITY_LISTS && k in r && r[k].List?
        ensures !Changed(EntityListStats(r[k].items))
      {
        RepairedEntityList(c[k].items);
      }
      ChunkFieldStatsQuiet(r, ENTITY_LISTS);
      QuietChunk(RepairChunk(nbt));
    }
  }

  // ---------------------------------------------------------------------
  // The chunks of a region file

  /** The totals after one more chunk: a chunk that reported a change counts
      as a fixed chunk, then its statistics are added. */
  function AddChunk(total: FixStats, chunkStats: FixStats): FixStats
  {
    Merge(if Changed(chunkStats) then total.(chunksFixed := total.chunksFixed + 1) else total, chunkStats)
  }

  lemma AddChunkCounts(total: FixStats, chunkStats: FixStats)
    requires chunkStats.chunksFixed == 0 && chunkStats.filesProcessed == 0
    ensures AddChunk(total, chunkStats).filesProcessed == total.filesProcessed
    ensures AddChunk(total, chunkStats).chunksFixed == total.chunksFixed + (if Changed(chunkStats) then 1 else 0)
  {
  }

  /** The totals of a region file after its chunks reported the given
      statistics, in iteration order. */
  function TallyChunks(chunkStats: seq<FixStats>): FixStats
  {
    if |chunkStats| == 0 then NoFixes.(filesProcessed := 1)
    else AddChunk(TallyChunks(chunkStats[..|chunkStats| - 1]), chunkStats[|chunkStats| - 1])
  }

  /** A file counts once; it counts at most one fixed chunk per chunk, and
      none exactly when no chunk reported a change. */
  lemma {:induction false} TallyChunksSpec(chunkStats: seq<FixStats>)
    requires forall i :: 0 <= i < |chunkStats| ==> chunkStats[i].chunksFixed == 0 && chunkStats[i].filesProcessed == 0
    ensures TallyChunks(chunkStats).filesProcessed == 1
    ensures TallyChunks(chunkStats).chunksFixed <= |chunkStats|
    ensures TallyChunks(chunkStats).chunksFixed == 0 <==> forall i :: 0 <= i < |chunkStats| ==> !Changed(chunkStats[i])
  {
    if |chunkStats| > 0 {
      var init := chunkStats[..|chunkStats| - 1];
      TallyChunksSpec(init);
      AddChunkCounts(TallyChunks(init), chunkStats[|chunkStats| - 1]);
      assert forall i :: 0 <= i < |init| ==> init[i] == chunkStats[i];
    }
  }

  /** The statistics of each chunk, in iteration order. */
  function ChunkStatsList(chunks: seq<Value>): (r: seq<FixStats>)
    ensures |r| == |chunks| && forall i :: 0 <= i < |chunks| ==> r[i] == ChunkStats(chunks[i])
  {
    seq(|chunks|, i requires 0 <= i < |chunks| => ChunkStats(chunks[i]))
  }

  /** The statistics `fix_region_file` returns for a file whose chunks, in
      iteration order, hold the given NBT trees. */
  function RegionStats(chunks: seq<Value>): FixStats
  {
    TallyChunks(ChunkStatsList(chunks))
  }

  lemma RegionStatsSpec(chunks: seq<Value>)
    ensures RegionStats(chunks).filesProcessed == 1
    ensures RegionStats(chunks).chunksFixed <= |chunks|
    ensures RegionStats(chunks).chunksFixed == 0 <==> forall i :: 0 <= i < |chunks| ==> !Changed(ChunkStats(chunks[i]))
  {
    var ss := ChunkStatsList(chunks);
    forall i | 0 <= i < |chunks|
      ensures ss[i].chunksFixed == 0 && ss[i].filesProcessed == 0
    {
      ChunkStatsCountNoChunks(chunks[i]);
    }
    TallyChunksSpec(ss);
  }

  /** The statistics of one chunk never count fixed chunks or files. */
  lemma ChunkStatsCountNoChunks(nbt: Value)
    ensures ChunkStats(nbt).chunksFixed == 0 && ChunkStats(nbt).filesProcessed == 0
  {
    if nbt.Compound? {
      ChunkFieldStatsCountNoChunks(nbt.fields, ENTITY_LISTS);
    }
  }

  lemma {:induction false} ChunkFieldStatsCountNoChunks(c: map<string, Value>, fields: seq<string>)
    ensures ChunkFieldStats(c, fields).chunksFixed == 0 && ChunkFieldStats(c, fields).filesProcessed == 0
  {
    if |fields| > 0 {
      ChunkFieldStatsCountNoChunks(c, fields[..|fields| - 1]);
      var k := fields[|fields| - 1];
      if k in c && c[k].List? {
        EntitiesCountNoChunks(Survivors(c[k].items));
      }
    }
  }

  lemma {:induction false} EntityStatsCountNoChunks(entity: Value)
    ensures EntityStats(entity).chunksFixed == 0 && EntityStats(entity).filesProcessed == 0
    decreases entity
  {
    if entity.Compound? && "Passengers" in entity.fields && entity.fields["Passengers"].List? {
      var ps := entity.fields["Passengers"].items;
      EntitiesCountNoChunks(ps);
    }
  }

  lemma {:induction false} EntitiesCountNoChunks(entities: seq<Value>)
    ensures EntitiesStats(entities).chunksFixed == 0 && EntitiesStats(entities).filesProcessed == 0
    decreases entities
  {
    if |entities| > 0 {
      EntitiesCountNoChunks(entities[..|entities| - 1]);
      EntityStatsCountNoChunks(entities[|entities| - 1]);
    }
  }

  /** The chunks of a region file after `fix_chunk` on each. */
  function RepairChunks(chunks: seq<Value>): (r: seq<Value>)
    ensures |r| == |chunks|
  {
    if |chunks| == 0 then [] else RepairChunks(chunks[..|chunks| - 1]) + [RepairChunk(chunks[|chunks| - 1])]
  }

  /** Whether one of the statistics reports a change. */
  predicate AnyChanged(chunkStats: seq<FixStats>)
  {
    |chunkStats| > 0 && (AnyChanged(chunkStats[..|chunkStats| - 1]) || Changed(chunkStats[|chunkStats| - 1]))
  }

  /** Whether some chunk reported a change, so that the file is written back. */
  predicate AnyChunkChanged(chunks: seq<Value>)
  {
    AnyChanged(ChunkStatsList(chunks))
  }

  /** Each chunk is fixed on its own, in place. */
  lemma {:induction false} RepairChunksSpec(chunks: seq<Value>)
    ensures forall i :: 0 <= i < |chunks| ==> RepairChunks(chunks)[i] == RepairChunk(chunks[i])
  {
    if |chunks| > 0 {
      RepairChunksSpec(chunks[..|chunks| - 1]);
    }
  }

  lemma {:induction false} AnyChangedSpec(chunkStats: seq<FixStats>)
    ensures AnyChanged(chunkStats) <==> exists i :: 0 <= i < |chunkStats| && Changed(chunkStats[i])
  {
    if |chunkStats| > 0 {
      var init := chunkStats[..|chunkStats| - 1];
      AnyChangedSpec(init);
      assert forall i :: 0 <= i < |init| ==> init[i] == chunkStats[i];
    }
  }

  /** The file is written back exactly when some chunk reported a change. */
  lemma AnyChunkChangedSpec(chunks: seq<Value>)
    ensures AnyChunkChanged(chunks) <==> exists i :: 0 <= i < |chunks| && Changed(ChunkStats(chunks[i]))
  {
    AnyChangedSpec(ChunkStatsList(chunks));
  }

  /** A region file none of whose chunks reported a change is unchanged, so
      not writing it back loses nothing. */
  lemma QuietRegion(chunks: seq<Value>)
    requires !AnyChunkChanged(chunks)
    ensures RepairChunks(chunks) == chunks
  {
    AnyChunkChangedSpec(chunks);
    RepairChunksSpec(chunks);
    forall i | 0 <= i < |chunks|
      ensures RepairChunks(chunks)[i] == chunks[i]
    {
      QuietChunk(chunks[i]);
    }
  }

  /** The loop of `fix_region_file` over the chunks, on their parsed NBT:
      each chunk is fixed, and whether the file must be written back is
      decided by whether any chunk reported a change. */
  method FixRegionChunks(chunks: seq<Value>) returns (fixed: seq<Value>, stats: FixStats, regionModified: bool)
    ensures fixed == RepairChunks(chunks)
    ensures stats == RegionStats(chunks)
    ensures regionModified == AnyChunkChanged(chunks)
  {
    fixed, stats, regionModified := [], NoFixes.(filesProcessed := 1), false;
    for i := 0 to |chunks|
      invariant fixed == RepairChunks(chunks[..i])
      invariant stats == TallyChunks(ChunkStatsList(chunks)[..i])
      invariant regionModified == AnyChanged(ChunkStatsList(chunks)[..i])
    {
      fixed, stats, regionModified := FixRegionChunk(chunks, i, fixed, stats, regionModified);
    }
    assert ChunkStatsList(chunks)[..|chunks|] == ChunkStatsList(chunks);
    assert chunks[..|chunks|] == chunks;
  }

  /** One turn of the loop in `fix_region_file`. */
  method FixRegionChunk(chunks: seq<Value>, i: nat, fixed: seq<Value>, stats: FixStats, regionModified: bool)
    returns (fixed': seq<Value>, stats': FixStats, regionModified': bool)
    requires i < |chunks|
    requires fixed == RepairChunks(chunks[..i])
    requires stats == TallyChunks(ChunkStatsList(chunks)[..i])
    requires regionModified == AnyChanged(ChunkStatsList(chunks)[..i])
    ensures fixed' == RepairChunks(chunks[..i + 1])
    ensures stats' == TallyChunks(ChunkStatsList(chunks)[..i + 1])
    ensures regionModified' == AnyChanged(ChunkStatsList(chunks)[..i + 1])
  {
    RegionStep(chunks, i);
    var chunk, chunkStats, _ := FixChunk(chunks[i]);
    stats', regionModified' := stats, regionModified;
    if Changed(chunkStats) {
      regionModified' := true;
      stats' := stats'.(chunksFixed := stats'.chunksFixed + 1);
    }
    stats' := Merge(stats', chunkStats);
    fixed' := fixed + [chunk];
  }

  lemma RegionStep(chunks: seq<Value>, i: nat)
    requires i < |chunks|
    ensures RepairChunks(chunks[..i + 1]) == RepairChunks(chunks[..i]) + [RepairChunk(chunks[i])]
    ensures AnyChanged(ChunkStatsList(chunks)[..i + 1]) == (AnyChanged(ChunkStatsList(chunks)[..i]) || Changed(ChunkStats(chunks[i])))
    ensures TallyChunks(ChunkStatsList(chunks)[..i + 1]) == AddChunk(TallyChunks(ChunkStatsList(chunks)[..i]), ChunkStats(chunks[i]))
  {
    assert chunks[..i + 1][..i] == chunks[..i];
    var ss := ChunkStatsList(chunks);
    assert ss[..i + 1][..i] == ss[..i];
  }
}
