/**
 * A spawn-list entry: one creature class paired with a biome or structure
 * group, a selection weight, a pack size and chunk-pack bounds, plus a tail
 * of `{tag:body}` optional-parameter segments. The entry is immutable once
 * built; it is encoded into one text value of the configuration store,
 * decoded back with a per-field fallback, repaired in the store when the
 * value has the wrong number of fields, and saved without its optional text.
 */
module SpawnEntry {
  import opened Wrappers
  import opened JavaLang
  import opened Parsing
  import opened Config

  /** A creature class (`Class<? extends EntityLiving>`), known by its qualified name. */
  datatype EntityClass = EntityClass(name: string)

  /**
   * The settings object built from the `spawn` segment
   * (OptionalSettingsSpawnListSpawning). What it does with its text is not
   * part of this model; it records the text it was built from.
   */
  datatype SpawnSettings = SpawnSettings(source: string)

  /** What the entry calls outside its own file. */
  datatype Host = Host(
    delimiter: char,                     // DefaultProps.DELIMETER
    parseFilteredInteger: IntParser,     // ParsingHelper.parseFilteredInteger
    isSpawnKey: string -> bool,          // Key.spawn.keyParser.isMatch
    mobName: EntityClass -> string,      // EntityList.classToStringMapping.get
    classHash: EntityClass -> Int32)     // Class.hashCode

  /**
   * The field delimiter is used as a literal one-character pattern. It must
   * differ from '{' and from every character Integer.toString can write.
   */
  predicate DelimiterOk(d: char) {
    d != '{' && !IsDigit(d) && d != '-'
  }

  /** The collaborators the round trip relies on. */
  ghost predicate RoundTripHost(h: Host) {
    DelimiterOk(h.delimiter) && InvertsToString(h.parseFilteredInteger)
  }

  datatype SpawnListEntry = SpawnListEntry(
    livingClass: EntityClass,
    pckgName: string,               // the biome group or structure group id
    itemWeight: Int32,              // the weight of the WeightedRandomItem
    packSize: Int32,
    minChunkPack: Int32,
    maxChunkPack: Int32,
    optionalParameters: string,     // kept verbatim
    spawning: SpawnSettings)

  /** The two IllegalArgumentException cases of the constructor. */
  datatype ConstructionError = NullLivingClass | NullOrEmptyGroupId

  // ---------------------------------------------------------------------------
  // Optional-parameter segments

  /** `optionalParameters.split("\\{")` */
  function Segments(optionalParameters: string): seq<string> {
    Split(optionalParameters, '{')
  }

  /** A segment with every '}' removed. */
  function Parsed(segment: string): string {
    RemoveAll(segment, '}')
  }

  /** The lower-cased text before the first ':'. */
  function TitleTag(parsed: string): string {
    ToLowerCase(SplitOnce(parsed, ':')[0])
  }

  predicate IsSpawnSegment(isSpawnKey: string -> bool, segment: string) {
    isSpawnKey(TitleTag(Parsed(segment)))
  }

  /** The settings built from the last segment tagged with the spawn key; None if there is none. */
  function LastSpawning(isSpawnKey: string -> bool, segments: seq<string>): Option<SpawnSettings> {
    if segments == [] then None
    else if IsSpawnSegment(isSpawnKey, segments[|segments| - 1]) then
      Some(SpawnSettings(Parsed(segments[|segments| - 1])))
    else LastSpawning(isSpawnKey, segments[..|segments| - 1])
  }

  /** The `spawning` field of an entry built with this optional text. */
  function SpawningOf(isSpawnKey: string -> bool, optionalParameters: string): SpawnSettings {
    LastSpawning(isSpawnKey, Segments(optionalParameters)).GetOr(SpawnSettings(""))
  }

  // ---------------------------------------------------------------------------
  // Construction

  /** The entry the constructor builds from arguments that pass its checks. */
  function Make(h: Host, livingClass: EntityClass, pckgName: string, weight: Int32, packSize: Int32,
                minChunkPack: Int32, maxChunkPack: Int32, optionalParameters: string): SpawnListEntry
  {
    SpawnListEntry(livingClass, pckgName, weight, packSize, minChunkPack, maxChunkPack,
                   optionalParameters, SpawningOf(h.isSpawnKey, optionalParameters))
  }

  /** What holds of every constructed entry. */
  predicate Valid(h: Host, e: SpawnListEntry) {
    !IsBlank(e.pckgName) && e.spawning == SpawningOf(h.isSpawnKey, e.optionalParameters)
  }

  /**
   * The constructor. A missing class, or a group id that is missing or
   * blank after trim, is rejected; otherwise every argument is stored as
   * given and `spawning` is built from the last spawn segment of the
   * optional text, or from "" when there is none.
   */
  method New(h: Host, livingClass: Option<EntityClass>, pckgName: Option<string>, weight: Int32,
             packSize: Int32, minChunkPack: Int32, maxChunkPack: Int32, optionalParameters: string)
    returns (r: Result<SpawnListEntry, ConstructionError>)
    ensures livingClass.None? ==> r == Failure(NullLivingClass)
    ensures livingClass.Some? && (pckgName.None? || IsBlank(pckgName.value)) ==> r == Failure(NullOrEmptyGroupId)
    ensures livingClass.Some? && pckgName.Some? && !IsBlank(pckgName.value) ==>
      r == Success(Make(h, livingClass.value, pckgName.value, weight, packSize, minChunkPack, maxChunkPack,
                        optionalParameters))
    ensures r.Success? ==> Valid(h, r.value)
  {
    if livingClass.None? {
      return Failure(NullLivingClass);
    }
    if pckgName.None? {
      return Failure(NullOrEmptyGroupId);
    }
    var name := pckgName.value;
    TrimEmptyIffBlank(name);
    if Trim(name) == "" {
      return Failure(NullOrEmptyGroupId);
    }
    var segments := Split(optionalParameters, '{');
    var spawning: Option<SpawnSettings> := None;
    var i := 0;
    while i < |segments|
      invariant 0 <= i <= |segments|
      invariant spawning == LastSpawning(h.isSpawnKey, segments[..i])
    {
      var parsed := RemoveAll(segments[i], '}');
      var titletag := ToLowerCase(SplitOnce(parsed, ':')[0]);
      if h.isSpawnKey(titletag) {
        spawning := Some(SpawnSettings(parsed));
      }
      assert segments[..i + 1][..i] == segments[..i];
      i := i + 1;
    }
    assert segments[..i] == segments;
    r := Success(SpawnListEntry(livingClass.value, name, weight, packSize, minChunkPack, maxChunkPack,
                                optionalParameters, spawning.GetOr(SpawnSettings(""))));
  }

  // ---------------------------------------------------------------------------
  // Encoding and decoding

  /** `weight D packSize D minChunkPack D maxChunkPack`, the value saveToConfig writes. */
  function ScalarValue(h: Host, e: SpawnListEntry): string {
    IntToString(e.itemWeight) + [h.delimiter] + IntToString(e.packSize) + [h.delimiter]
      + IntToString(e.minChunkPack) + [h.delimiter] + IntToString(e.maxChunkPack)
  }

  /** The default value createFromConfig offers the store: the scalars, then the optional text. */
  function ConfigValue(h: Host, e: SpawnListEntry): string {
    ScalarValue(h, e) + e.optionalParameters
  }

  /** What a stored value decodes to before an entry is built from it. */
  datatype Fields = Fields(weight: Int32, packSize: Int32, minChunkPack: Int32, maxChunkPack: Int32,
                           optionalParameters: string)

  /** The part of a stored value before its first '{'. */
  function ScalarPart(stored: string): string {
    SplitOnce(stored, '{')[0]
  }

  /**
   * Decoding a stored value: the text before the first '{' must split on
   * the delimiter into exactly four fields, else None. Each field goes to
   * the parser with `fallback` (createFromConfig passes its own packSize,
   * for all four fields); the optional text is '{' and everything after the
   * first '{', or "" when there is no '{'.
   */
  function Decode(h: Host, stored: string, fallback: Int32): Option<Fields> {
    var master := SplitOnce(stored, '{');
    var parts := Split(master[0], h.delimiter);
    if |parts| == 4 then
      Some(Fields(h.parseFilteredInteger(parts[0], fallback, "spawnWeight"),
                  h.parseFilteredInteger(parts[1], fallback, "packSize"),
                  h.parseFilteredInteger(parts[2], fallback, "minChunkPack"),
                  h.parseFilteredInteger(parts[3], fallback, "maxChunkPack"),
                  if |master| == 2 then "{" + master[1] else ""))
    else None
  }

  /** The entry createFromConfig returns for a stored value, and the value it writes back if any. */
  datatype LoadResult = LoadResult(entry: SpawnListEntry, rewrite: Option<string>)

  /**
   * createFromConfig without the store: an accepted value gives a new entry
   * with this entry's class and group id; a rejected one gives this entry's
   * scalars with empty optional text, and the full default value is written back.
   */
  function Load(h: Host, e: SpawnListEntry, stored: string): LoadResult {
    match Decode(h, stored, e.packSize)
    case Some(f) =>
      LoadResult(Make(h, e.livingClass, e.pckgName, f.weight, f.packSize, f.minChunkPack, f.maxChunkPack,
                      f.optionalParameters), None)
    case None =>
      LoadResult(Make(h, e.livingClass, e.pckgName, e.itemWeight, e.packSize, e.minChunkPack, e.maxChunkPack, ""),
                 Some(ConfigValue(h, e)))
  }

  // ---------------------------------------------------------------------------
  // The store

  const CategoryPrefix: string := "CreatureSettings.SpawnListEntry."

  /**
   * Sorted by biome, the group id names the category and the creature is
   * the key; otherwise the creature names the category and the group id is the key.
   */
  function PropertyKeyOf(sortByBiome: bool, pckgName: string, mobName: string): PropertyKey {
    if sortByBiome then (CategoryPrefix + pckgName, mobName) else (CategoryPrefix + mobName, pckgName)
  }

  function SpawnEntryKey(h: Host, e: SpawnListEntry, sortByBiome: bool): PropertyKey {
    PropertyKeyOf(sortByBiome, e.pckgName, h.mobName(e.livingClass))
  }

  /** getSpawnEntryProperty: get-or-create the entry's property and read its value. */
  method GetSpawnEntryProperty(h: Host, e: SpawnListEntry, config: Configuration, defaultValue: string,
                               sortByBiome: bool) returns (value: string)
    modifies config
    ensures value == GetOrDefault(old(config.properties), SpawnEntryKey(h, e, sortByBiome), defaultValue)
    ensures config.properties == old(config.properties)[SpawnEntryKey(h, e, sortByBiome) := value]
  {
    var mobName := h.mobName(e.livingClass);
    var categoryKey: string;
    if sortByBiome {
      categoryKey := CategoryPrefix + e.pckgName;
      value := config.Get(categoryKey, mobName, defaultValue);
    } else {
      categoryKey := CategoryPrefix + mobName;
      value := config.Get(categoryKey, e.pckgName, defaultValue);
    }
  }

  /**
   * createFromConfig: read (creating it if absent) this entry's property,
   * decode it against this entry, and on a field-count mismatch overwrite
   * the property with the full default value.
   */
  method CreateFromConfig(h: Host, e: SpawnListEntry, config: Configuration, sortByBiome: bool)
    returns (r: SpawnListEntry)
    requires Valid(h, e)
    modifies config
    ensures var key := SpawnEntryKey(h, e, sortByBiome);
            var stored := GetOrDefault(old(config.properties), key, ConfigValue(h, e));
            var loaded := Load(h, e, stored);
            r == loaded.entry && Valid(h, r)
            && config.properties == old(config.properties)[key := loaded.rewrite.GetOr(stored)]
  {
    var defaultValue := ConfigValue(h, e);
    var stored := GetSpawnEntryProperty(h, e, config, defaultValue, sortByBiome);
    match Decode(h, stored, e.packSize) {
      case Some(f) =>
        var created := New(h, Some(e.livingClass), Some(e.pckgName), f.weight, f.packSize, f.minChunkPack,
                           f.maxChunkPack, f.optionalParameters);
        r := created.value;
      case None =>
        var key := SpawnEntryKey(h, e, sortByBiome);
        config.Set(key.0, key.1, defaultValue);
        var created := New(h, Some(e.livingClass), Some(e.pckgName), e.itemWeight, e.packSize, e.minChunkPack,
                           e.maxChunkPack, "");
        r := created.value;
    }
  }

  /** saveToConfig: overwrite this entry's property with its scalar value. */
  method SaveToConfig(h: Host, e: SpawnListEntry, config: Configuration, sortByBiome: bool)
    modifies config
    ensures config.properties == old(config.properties)[SpawnEntryKey(h, e, sortByBiome) := ScalarValue(h, e)]
  {
    var defaultValue := ScalarValue(h, e);
    var current := GetSpawnEntryProperty(h, e, config, defaultValue, sortByBiome);
    var key := SpawnEntryKey(h, e, sortByBiome);
    config.Set(key.0, key.1, defaultValue);
  }

  // ---------------------------------------------------------------------------
  // Identity

  /** The argument of `equals`: null, a spawn-list entry, or an object of any other class. */
  datatype JavaObject = Null | Entry(entry: SpawnListEntry) | OtherClass

  /**
   * `equals`: only another spawn-list entry can be equal, and only through
   * its group id and class. The `this == other` shortcut is covered, since
   * an entry has its own group id and class.
   */
  predicate Equals(e: SpawnListEntry, other: JavaObject) {
    match other
    case Null => false
    case OtherClass => false
    case Entry(o) => e.pckgName == o.pckgName && e.livingClass == o.livingClass
  }

  /** The value `hashCode` computes, `31 * (31 + hash(pckgName)) + hash(livingClass)` in `int` arithmetic. */
  function IdentityHash(h: Host, livingClass: EntityClass, pckgName: string): Int32 {
    Wrap32(31 * (31 + StringHash(pckgName)) + h.classHash(livingClass))
  }

  /**
   * `hashCode`, accumulating into `result` with `int` wrap-around. The null
   * branches of the source cannot be taken: a constructed entry has both fields.
   */
  method HashCode(h: Host, e: SpawnListEntry) returns (result: Int32)
    ensures result == IdentityHash(h, e.livingClass, e.pckgName)
  {
    var prime := 31;
    result := 1;
    result := Wrap32(prime * result + StringHash(e.pckgName));
    result := Wrap32(prime * result + h.classHash(e.livingClass));
    Wrap32MulAdd(prime, 31 + StringHash(e.pckgName), h.classHash(e.livingClass));
  }
}
