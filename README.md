# SpawnListEntry

A model of the spawn-list entry of Just Another Spawner. An entry pairs one
creature class with a biome group or structure group id. It also holds a
selection weight, a pack size, minimum and maximum chunk-pack sizes, and a
tail of optional-parameter segments written `{tag:body}`.

The model covers five things:

- What the constructor validates, and how it picks the `spawn` settings out of
  the optional text.
- How an entry is encoded as one text value of the configuration store. The
  value looks like `weight,packSize,minChunkPack,maxChunkPack{...}` with the
  host's delimiter between the fields.
- How `createFromConfig` decodes that value, with a fallback for each field,
  and how it repairs the stored value when the field count is wrong.
- How `saveToConfig` writes the value without its optional text, and which
  category and key address an entry under each layout.
- `equals` and `hashCode`.

Modules:

- `Wrappers`: `Option` and `Result`.
- `JavaLang`:
  - Java `int` as `Int32`, with explicit 32-bit wrap-around.
  - `Integer.toString`.
  - `String.split` in its no-limit form, which drops trailing empty strings
    and returns `[s]` when nothing matches, and in its limit-2 form.
  - `replace`, `trim`, ASCII `toLowerCase` and `String.hashCode`.
- `Parsing`: the integer parser the codec calls. It is a parameter; the codec
  relies only on it reading back what `Integer.toString` wrote.
  `ReferenceParse` is one parser shown to have that property.
- `Config`: the configuration store. It is a class whose field maps
  `(category, key)` to text, with get-or-create `Get` and with `Set`.
- `SpawnEntry`: the entry and its operations.
  - The entry is an immutable datatype; the source's fields are all final
    except `spawning`, which only the constructor in this file sets.
  - The constructor is the method `New`. Its segment loop is proved against
    the function `SpawningOf`.
  - `Load` is `createFromConfig` with the store factored out: it maps a stored
    value to the entry returned and the value written back.
- `SpawnEntryProperties`: lemmas about the model, which are the properties
  below.

The outside code the entry calls is collected in the `Host` value:

- the field delimiter;
- `ParsingHelper.parseFilteredInteger`;
- the `spawn` key matcher;
- `EntityList.classToStringMapping`;
- `Class.hashCode`.

Where a property needs an assumption about these, it is a `requires`:

- `DelimiterOk`: the delimiter is not '{', not a digit and not '-'.
- `InvertsToString`: the parser returns `n` for `Integer.toString(n)`.

## Model

| member | source | states |
|---|---|---|
| SpawnEntry.New | src/jas/common/spawner/creature/entry/SpawnListEntry.java:46-74 | A missing class fails with NullLivingClass. Otherwise, a missing group id, or one that is empty after trim, fails with NullOrEmptyGroupId. Otherwise every argument is stored unchanged, and `spawning` comes from the last optional segment whose lower-cased tag before ':' is the spawn key, or from "" when no segment has it. Every success is `Valid`. |
| SpawnEntryProperties.LastSpawningNoneIff | src/jas/common/spawner/creature/entry/SpawnListEntry.java:66-73 | No settings are found exactly when no segment carries the spawn key. |
| SpawnEntryProperties.LastSpawningAt | src/jas/common/spawner/creature/entry/SpawnListEntry.java:66-72 | When segment i carries the spawn key and no later one does, the settings are built from segment i with its '}' removed, whatever the earlier segments hold. |
| SpawnEntryProperties.LastSpawningAppend | src/jas/common/spawner/creature/entry/SpawnListEntry.java:66-72 | Over a concatenation of segment lists, a spawn segment in the later part decides; if the later part has none, the earlier part decides. |
| SpawnEntryProperties.EmptyOptionalParametersGiveDefault | src/jas/common/spawner/creature/entry/SpawnListEntry.java:66-73 | Empty optional text gives the settings built from "". |
| SpawnEntryProperties.UnknownSegmentIgnored | src/jas/common/spawner/creature/entry/SpawnListEntry.java:66-72 | Putting a segment without the spawn key in front of the optional text does not change the settings. |
| SpawnEntryProperties.FinalSpawnSegmentWins | src/jas/common/spawner/creature/entry/SpawnListEntry.java:66-72 | When the optional text ends with a spawn segment, the settings come from that segment, whatever comes before it. |
| SpawnEntryProperties.DecodeRecord | src/jas/common/spawner/creature/entry/SpawnListEntry.java:98-105 | A record of four delimiter-separated fields, possibly with extra delimiters at the end, is accepted. Each field is parsed under its own name with the given fallback. The optional text after it (empty or starting with '{') comes back unchanged. |
| SpawnEntryProperties.DecodeAcceptsIffFourFields | src/jas/common/spawner/creature/entry/SpawnListEntry.java:98-100 | A stored value is accepted exactly when its text before the first '{' consists of four delimiter-free fields, the last one non-empty, possibly followed by extra delimiters. |
| SpawnEntryProperties.ThreeFieldsRejected | src/jas/common/spawner/creature/entry/SpawnListEntry.java:99-100 | A value of only three fields (the last non-empty) is rejected, also when trailing delimiters or optional text starting with '{' follow them. |
| SpawnEntryProperties.ScalarValueIsRecord | src/jas/common/spawner/creature/entry/SpawnListEntry.java:118-120 | The saved value is the four decimal numbers joined by the delimiter. It has no '{', and no number contains the delimiter. |
| SpawnEntryProperties.ScalarValueDecodes | src/jas/common/spawner/creature/entry/SpawnListEntry.java:98-105 | The saved value decodes to the entry's own four numbers and empty optional text. |
| SpawnEntryProperties.RoundTrip | src/jas/common/spawner/creature/entry/SpawnListEntry.java:93-107 | Loading an entry's own default value gives back the same entry, optional text and spawn settings included, and writes nothing back. |
| SpawnEntryProperties.SavedValueRoundTrip | src/jas/common/spawner/creature/entry/SpawnListEntry.java:117-123 | Loading what saveToConfig wrote gives the same entry without its optional text, so with the default spawn settings. Nothing is written back. |
| SpawnEntryProperties.RepairOnRejectedValue | src/jas/common/spawner/creature/entry/SpawnListEntry.java:108-113 | A rejected value gives the entry's own class, group id and four numbers, with empty optional text. The full default value, optional text included, is written back. |
| SpawnEntryProperties.RepairedValueLoadsCleanly | src/jas/common/spawner/creature/entry/SpawnListEntry.java:108-113 | After a repair the store holds a value that the next load accepts, giving back the original entry with nothing written back. |
| SpawnEntryProperties.UnreadableFieldsFallBackToPackSize | src/jas/common/spawner/creature/entry/SpawnListEntry.java:101-104 | Under the reference parser, any of the four fields that is not a numeral becomes the entry's packSize. This holds for the weight and chunk bounds too, not only for packSize. |
| SpawnEntryProperties.OneUnreadableField | src/jas/common/spawner/creature/entry/SpawnListEntry.java:101-104 | Whichever one of the four fields is replaced by other text (without '{' or the delimiter, and non-empty in the last position), the other three decimal fields keep their values, and only the replaced field goes to the parser, under its own name and with packSize as the fallback. |
| SpawnEntryProperties.LoadIntoEmptyStore | src/jas/common/spawner/creature/entry/SpawnListEntry.java:91-107 | createFromConfig on an empty store returns the entry itself and leaves the entry's default value stored. |
| SpawnEntry.GetSpawnEntryProperty | src/jas/common/spawner/creature/entry/SpawnListEntry.java:125-140 | Returns the value stored at the entry's key, or the default. The key is created with the default if it was absent, and nothing else changes. |
| SpawnEntry.CreateFromConfig | src/jas/common/spawner/creature/entry/SpawnListEntry.java:91-115 | Returns what `Load` gives for the stored value, or for the default when the key is new, and the result is `Valid`. The key ends up holding the value written back after a repair, and otherwise the value read. No other key changes. |
| SpawnEntry.SaveToConfig | src/jas/common/spawner/creature/entry/SpawnListEntry.java:117-123 | The entry's key ends up holding the four numbers without optional text, and no other key changes. |
| SpawnEntryProperties.KeyRolesSwap | src/jas/common/spawner/creature/entry/SpawnListEntry.java:130-136 | The by-biome layout is the by-creature layout with the group id and creature name swapped. |
| SpawnEntryProperties.KeyDeterminesIdentity | src/jas/common/spawner/creature/entry/SpawnListEntry.java:130-136 | Within one layout, the `(category, key)` pair computed for an entry determines its group id and creature name: two entries get the same pair only when both agree. |
| SpawnEntryProperties.LayoutsShareKeyIff | src/jas/common/spawner/creature/entry/SpawnListEntry.java:130-136 | The two layouts address an entry by the same property exactly when its group id equals its creature name. |
| SpawnEntryProperties.EqualsIsEquivalence | src/jas/common/spawner/creature/entry/SpawnListEntry.java:151-161 | Equality on entries is reflexive, symmetric and transitive. |
| SpawnEntryProperties.EqualsIgnoresTunables | src/jas/common/spawner/creature/entry/SpawnListEntry.java:151-161 | Changing weight, pack sizes, optional text or spawn settings leaves an entry equal to the original. |
| SpawnEntryProperties.EqualEntriesHashAlike | src/jas/common/spawner/creature/entry/SpawnListEntry.java:142-161 | Equal entries have the same hash. |
| SpawnEntry.HashCode | src/jas/common/spawner/creature/entry/SpawnListEntry.java:142-149 | The result is `31 * (31 + hash(groupId)) + hash(class)`, reduced to a 32-bit `int`. |
| JavaLang.Wrap32MulAdd | src/jas/common/spawner/creature/entry/SpawnListEntry.java:145-147 | Wrapping an intermediate `int` result before the next multiply-add gives the same value as wrapping only at the end. |
| JavaLang.SplitHasFourIff | src/jas/common/spawner/creature/entry/SpawnListEntry.java:99-100 | Java's `split` gives exactly four strings when the text is four delimiter-free fields, the last one non-empty, possibly followed by delimiters. |
| JavaLang.TrimEmptyIffBlank | src/jas/common/spawner/creature/entry/SpawnListEntry.java:55 | `trim()` is empty exactly when every character is at most U+0020. |
| Parsing.ReferenceParseInvertsToString | src/jas/common/spawner/creature/entry/SpawnListEntry.java:101-104 | Parsing the decimal text of any `int` gives that `int` back, whatever the fallback. |
| Config.Configuration.Get | src/jas/common/spawner/creature/entry/SpawnListEntry.java:132 | Returns the stored value, or the default, which is then stored. Nothing else changes. |
| Config.Configuration.Set | src/jas/common/spawner/creature/entry/SpawnListEntry.java:112 | Overwrites one property and leaves the others alone. |

## Behaviour as written

The model follows the source as written on these points:

- Every field of a stored value falls back to the entry's packSize, not to
  that field's own old value (lines 101-104).
- Every '}' in a segment is removed, not only a closing one (line 67).
- The empty segment in front of the first '{' goes through the loop like any
  other (line 66).
- The spawn settings are built from the whole segment, tag included, once
  its '}' are removed (line 70).
- The optional text survives a round trip only when it is empty or starts
  with '{'. Decoding keeps '{' plus what follows the first '{' (line 105).
  The round-trip lemmas require this through `OptionalTextOk`.

## Left out

- The category comment and `setupConfigCategory` (lines 42-44, 80-83, 137-138): they only set comment text in the store.
- `getLivingHandler` (lines 76-78): it looks up a global registry, which is not part of this model.
- `getOptionalSpawning` (lines 38-40): it returns the `spawning` field, which the datatype exposes directly.
- Log output and exception messages (lines 56, 109-111): only which error is raised is modelled, not its text.
- The Java `assert` statements (lines 49-50): they are not enabled in normal runs, and the explicit checks after them give the same outcome.
- `WeightedRandomItem` beyond holding the weight: the random draw is not part of this model.
- A null `optionalParameters`: the source would throw a NullPointerException. The model's constructor takes a string; the two constructor calls in this file (lines 106 and 113) pass non-null text.
- `EntityList.classToStringMapping` returning null for an unmapped class: the model's mobName function always gives a name.
- The internal representation of the Forge store: it lower-cases category names and keeps typed properties. The model's store maps `(category, key)` to text.
- KeyDeterminesIdentity: is about the `(category, key)` pair the entry computes, not about the property the Forge store resolves it to. Because the store lower-cases category names (line 137 lower-cases the category as well), two entries whose group ids differ only in letter case (sorted by biome) or whose creature names do (sorted by creature) can reach the same stored property. The model's store does no case folding, so it does not show this collision.
- Code-unit details of characters: `toLowerCase` is modelled for ASCII letters only, and `String.hashCode` is taken over the model's characters rather than UTF-16 code units.
- Regular-expression escaping of the delimiter: the delimiter is treated as one literal character.
- The internals of `parseFilteredInteger`, of the spawn key matcher and of `OptionalSettingsSpawnListSpawning`: these are parameters of `Host`. `SpawnSettings` records only the text it was built from.
- The `this == other` shortcut in `equals`: entries are values, and the shortcut agrees with comparing group id and class.
- The `null` branches of `hashCode`: a constructed entry always has a class and a group id.
