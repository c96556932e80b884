/**
 * What the spawn-list entry promises: which optional segment decides its
 * spawn settings, that its default value decodes back to it, how many
 * fields decoding accepts and what an unreadable field becomes, what the
 * repair writes, how the two store layouts address an entry, and that
 * equality and hashing see only the identity.
 */
module SpawnEntryProperties {
  import opened Wrappers
  import opened JavaLang
  import opened Parsing
  import opened Config
  import opened SpawnEntry

  // ---------------------------------------------------------------------------
  // Optional-parameter segments

  /** Spawn settings are absent exactly when no segment carries the spawn key. */
  lemma {:induction false} LastSpawningNoneIff(isSpawnKey: string -> bool, segments: seq<string>)
    ensures LastSpawning(isSpawnKey, segments).None?
        <==> forall i :: 0 <= i < |segments| ==> !IsSpawnSegment(isSpawnKey, segments[i])
    decreases |segments|
  {
    if segments != [] {
      var n := |segments| - 1;
      var init := segments[..n];
      LastSpawningNoneIff(isSpawnKey, init);
      if IsSpawnSegment(isSpawnKey, segments[n]) {
        assert LastSpawning(isSpawnKey, segments).Some?;
      } else {
        assert LastSpawning(isSpawnKey, segments) == LastSpawning(isSpawnKey, init);
        if LastSpawning(isSpawnKey, init).Some? {
          var j :| 0 <= j < |init| && IsSpawnSegment(isSpawnKey, init[j]);
          assert segments[j] == init[j];
        } else {
          forall i | 0 <= i < |segments| ensures !IsSpawnSegment(isSpawnKey, segments[i]) {
            if i < n {
              assert segments[i] == init[i];
            } else {
              assert i == n;
            }
          }
        }
      }
    }
  }

  /** A spawn segment followed only by other segments decides the settings: the last match wins. */
  lemma {:induction false} LastSpawningAt(isSpawnKey: string -> bool, segments: seq<string>, i: nat)
    requires i < |segments| && IsSpawnSegment(isSpawnKey, segments[i])
    requires forall j :: i < j < |segments| ==> !IsSpawnSegment(isSpawnKey, segments[j])
    ensures LastSpawning(isSpawnKey, segments) == Some(SpawnSettings(Parsed(segments[i])))
    decreases |segments|
  {
    if i < |segments| - 1 {
      var init := segments[..|segments| - 1];
      assert segments[i] == init[i];
      forall j | i < j < |init| ensures !IsSpawnSegment(isSpawnKey, init[j]) {
        assert init[j] == segments[j];
      }
      LastSpawningAt(isSpawnKey, init, i);
    }
  }

  /** The later segments decide when one of them carries the spawn key; otherwise the earlier ones do. */
  lemma {:induction false} LastSpawningAppend(isSpawnKey: string -> bool, a: seq<string>, b: seq<string>)
    ensures LastSpawning(isSpawnKey, a + b)
         == if LastSpawning(isSpawnKey, b).Some? then LastSpawning(isSpawnKey, b) else LastSpawning(isSpawnKey, a)
    decreases |b|
  {
    if b == [] {
      assert a + b == a;
    } else {
      assert (a + b)[|a + b| - 1] == b[|b| - 1];
      assert (a + b)[..|a + b| - 1] == a + b[..|b| - 1];
      LastSpawningAppend(isSpawnKey, a, b[..|b| - 1]);
    }
  }

  /** Empty optional text gives the default settings, whatever the spawn key matches. */
  lemma EmptyOptionalParametersGiveDefault(isSpawnKey: string -> bool)
    ensures SpawningOf(isSpawnKey, "") == SpawnSettings("")
  {
    assert Segments("") == [""];
    assert Parsed("") == "";
  }

  /** The raw pieces of `{u{t` and of `{t`. */
  lemma PiecesWithLeading(u: string, t: string)
    requires '{' !in u
    ensures Pieces("{" + u + "{" + t, '{') == ([""] + [u]) + Pieces(t, '{')
    ensures Pieces("{" + t, '{') == [""] + Pieces(t, '{')
  {
    var c := '{';
    assert "{" + u + "{" + t == [] + [c] + (u + [c] + t);
    assert "{" + t == [] + [c] + t;
    PiecesAfterFirst([], c, u + [c] + t);
    PiecesAfterFirst(u, c, t);
    PiecesAfterFirst([], c, t);
  }

  /** Dropping trailing empties after a leading empty piece, with and without a non-empty second piece. */
  lemma DropWithLeading(u: string, r: seq<string>)
    requires u != ""
    ensures var d := DropTrailingEmpty(r);
            && DropTrailingEmpty(([""] + [u]) + r) == (if d == [] then [""] + [u] else [""] + [u] + d)
            && DropTrailingEmpty([""] + r) == (if d == [] then [] else [""] + d)
  {
    DropAppend([""] + [u], r);
    DropAppend([""], r);
    assert DropTrailingEmpty([""] + [u]) == [""] + [u];
    assert DropTrailingEmpty([""]) == [];
  }

  /** The segments of `{u` followed by more `{`-prefixed text, next to those of that text alone. */
  lemma SegmentsWithLeading(u: string, t: string)
    requires '{' !in u && u != ""
    ensures var d := DropTrailingEmpty(Pieces(t, '{'));
            && Segments("{" + u + "{" + t) == (if d == [] then [""] + [u] else [""] + [u] + d)
            && Segments("{" + t) == (if d == [] then [] else [""] + d)
  {
    PiecesWithLeading(u, t);
    DropWithLeading(u, Pieces(t, '{'));
    assert ("{" + u + "{" + t)[0] == '{';
    assert ("{" + t)[0] == '{';
  }

  /** A second segment without the spawn key leaves the first one to decide. */
  lemma NonSpawnSegmentSkipped(isSpawnKey: string -> bool, u: string)
    requires !IsSpawnSegment(isSpawnKey, u)
    ensures LastSpawning(isSpawnKey, [""] + [u]) == LastSpawning(isSpawnKey, [""])
  {
    assert ([""] + [u])[..1] == [""];
  }

  /** `{u` alone gives the settings of empty text when u does not carry the spawn key. */
  lemma UnknownSegmentAlone(isSpawnKey: string -> bool, u: string)
    requires '{' !in u && u != "" && !IsSpawnSegment(isSpawnKey, u)
    ensures SpawningOf(isSpawnKey, "{" + u) == SpawningOf(isSpawnKey, "")
  {
    var c := '{';
    NonSpawnSegmentSkipped(isSpawnKey, u);
    assert "{" + u == [] + [c] + u;
    PiecesAfterFirst([], c, u);
    assert Segments("{" + u) == [""] + [u];
    assert Segments("") == [""];
  }

  /** `{u{t` gives the settings of `{t` when u does not carry the spawn key. */
  lemma UnknownSegmentBeforeMore(isSpawnKey: string -> bool, u: string, t: string)
    requires '{' !in u && u != "" && !IsSpawnSegment(isSpawnKey, u)
    ensures SpawningOf(isSpawnKey, "{" + u + "{" + t) == SpawningOf(isSpawnKey, "{" + t)
  {
    NonSpawnSegmentSkipped(isSpawnKey, u);
    assert Parsed("") == "";
    SegmentsWithLeading(u, t);
    var d := DropTrailingEmpty(Pieces(t, '{'));
    if d != [] {
      LastSpawningAppend(isSpawnKey, [""] + [u], d);
      LastSpawningAppend(isSpawnKey, [""], d);
    }
  }

  /**
   * A leading segment that does not carry the spawn key changes nothing:
   * `{unknown:foo}{spawn:bar}` gives the settings of `{spawn:bar}`.
   */
  lemma UnknownSegmentIgnored(isSpawnKey: string -> bool, u: string, rest: string)
    requires '{' !in u && u != "" && !IsSpawnSegment(isSpawnKey, u)
    requires rest == "" || rest[0] == '{'
    ensures SpawningOf(isSpawnKey, "{" + u + rest) == SpawningOf(isSpawnKey, rest)
  {
    if rest == "" {
      assert "{" + u + rest == "{" + u;
      UnknownSegmentAlone(isSpawnKey, u);
    } else {
      var t := rest[1..];
      assert rest == "{" + t;
      assert "{" + u + rest == "{" + u + "{" + t;
      UnknownSegmentBeforeMore(isSpawnKey, u, t);
    }
  }

  /** A spawn segment at the end of the optional text decides the settings, whatever precedes it. */
  lemma FinalSpawnSegmentWins(isSpawnKey: string -> bool, before: string, u: string)
    requires '{' !in u && u != "" && IsSpawnSegment(isSpawnKey, u)
    ensures SpawningOf(isSpawnKey, before + "{" + u) == SpawnSettings(Parsed(u))
  {
    var c := '{';
    var s := before + "{" + u;
    assert s == before + [c] + u;
    PiecesAround(before, c, u);
    var ps := Pieces(before, c) + [u];
    assert c in s by { assert s[|before|] == c; }
    assert Segments(s) == ps;
  }

  // ---------------------------------------------------------------------------
  // Encoding and decoding

  /** No '{' occurs in a four-field record whose fields and delimiter have none. */
  lemma NoBraceInRecord(a: string, b: string, m: string, x: string, k: nat, d: char)
    requires '{' !in a && '{' !in b && '{' !in m && '{' !in x && d != '{'
    ensures '{' !in FourFieldRecord(a, b, m, x, k, d)
  {
  }

  /**
   * Decoding a well-formed record: each of the four fields goes to the
   * parser with the fallback, and the optional text comes back unchanged.
   */
  lemma DecodeRecord(h: Host, a: string, b: string, m: string, x: string, k: nat, opt: string, fallback: Int32)
    requires h.delimiter != '{'
    requires '{' !in a && '{' !in b && '{' !in m && '{' !in x
    requires h.delimiter !in a && h.delimiter !in b && h.delimiter !in m && h.delimiter !in x && x != ""
    requires opt == "" || opt[0] == '{'
    ensures Decode(h, FourFieldRecord(a, b, m, x, k, h.delimiter) + opt, fallback)
         == Some(Fields(h.parseFilteredInteger(a, fallback, "spawnWeight"),
                        h.parseFilteredInteger(b, fallback, "packSize"),
                        h.parseFilteredInteger(m, fallback, "minChunkPack"),
                        h.parseFilteredInteger(x, fallback, "maxChunkPack"),
                        opt))
  {
    var rec := FourFieldRecord(a, b, m, x, k, h.delimiter);
    NoBraceInRecord(a, b, m, x, k, h.delimiter);
    if opt == "" {
      assert rec + opt == rec;
    } else {
      assert rec + opt == rec + ['{'] + opt[1..];
      SplitOnceAt(rec, '{', opt[1..]);
      assert "{" + opt[1..] == opt;
    }
    SplitFourFields(a, b, m, x, k, h.delimiter);
  }

  /** Decoding accepts a stored value exactly when its text before the first '{' has the four-field shape. */
  lemma DecodeAcceptsIffFourFields(h: Host, stored: string, fallback: Int32)
    ensures Decode(h, stored, fallback).Some? <==> HasFourFields(ScalarPart(stored), h.delimiter)
  {
    SplitHasFourIff(ScalarPart(stored), h.delimiter);
  }

  /** The scalar value of an entry is a four-field record without '{'. */
  lemma ScalarValueIsRecord(h: Host, e: SpawnListEntry)
    requires DelimiterOk(h.delimiter)
    ensures ScalarValue(h, e) == FourFieldRecord(IntToString(e.itemWeight), IntToString(e.packSize),
                                                 IntToString(e.minChunkPack), IntToString(e.maxChunkPack), 0, h.delimiter)
    ensures '{' !in ScalarValue(h, e)
    ensures h.delimiter !in IntToString(e.itemWeight) && h.delimiter !in IntToString(e.packSize)
    ensures h.delimiter !in IntToString(e.minChunkPack) && h.delimiter !in IntToString(e.maxChunkPack)
    ensures '{' !in IntToString(e.itemWeight) && '{' !in IntToString(e.packSize)
    ensures '{' !in IntToString(e.minChunkPack) && '{' !in IntToString(e.maxChunkPack)
  {
    IntToStringAvoids(e.itemWeight, h.delimiter);
    IntToStringAvoids(e.packSize, h.delimiter);
    IntToStringAvoids(e.minChunkPack, h.delimiter);
    IntToStringAvoids(e.maxChunkPack, h.delimiter);
    IntToStringAvoids(e.itemWeight, '{');
    IntToStringAvoids(e.packSize, '{');
    IntToStringAvoids(e.minChunkPack, '{');
    IntToStringAvoids(e.maxChunkPack, '{');
    assert Repeat(h.delimiter, 0) == [];
  }

  /** The optional text carried through a round trip: empty or starting with '{'. */
  predicate OptionalTextOk(optionalParameters: string) {
    optionalParameters == "" || optionalParameters[0] == '{'
  }

  /**
   * Round trip: an entry's own default value is accepted and decodes to
   * the same entry (weight, pack sizes, optional text and identity), with
   * nothing written back.
   */
  lemma RoundTrip(h: Host, e: SpawnListEntry)
    requires RoundTripHost(h) && Valid(h, e) && OptionalTextOk(e.optionalParameters)
    ensures Load(h, e, ConfigValue(h, e)) == LoadResult(e, None)
  {
    ScalarValueIsRecord(h, e);
    var w, p, mn, mx := IntToString(e.itemWeight), IntToString(e.packSize), IntToString(e.minChunkPack),
                        IntToString(e.maxChunkPack);
    DecodeRecord(h, w, p, mn, mx, 0, e.optionalParameters, e.packSize);
    ReadsBackDecimal(h, e.itemWeight, e.packSize, "spawnWeight");
    ReadsBackDecimal(h, e.packSize, e.packSize, "packSize");
    ReadsBackDecimal(h, e.minChunkPack, e.packSize, "minChunkPack");
    ReadsBackDecimal(h, e.maxChunkPack, e.packSize, "maxChunkPack");
    var f := Fields(e.itemWeight, e.packSize, e.minChunkPack, e.maxChunkPack, e.optionalParameters);
    assert Decode(h, ConfigValue(h, e), e.packSize) == Some(f);
    LoadAccepted(h, e, ConfigValue(h, e), f);
  }

  /** The host's parser reads back the decimal text of `n`. */
  lemma ReadsBackDecimal(h: Host, n: Int32, fallback: Int32, field: string)
    requires RoundTripHost(h)
    ensures h.parseFilteredInteger(IntToString(n), fallback, field) == n
  {
  }

  /** An accepted value gives the entry the constructor builds from its fields, with nothing written back. */
  lemma LoadAccepted(h: Host, e: SpawnListEntry, stored: string, f: Fields)
    requires Decode(h, stored, e.packSize) == Some(f)
    ensures Load(h, e, stored) == LoadResult(Make(h, e.livingClass, e.pckgName, f.weight, f.packSize,
                                                  f.minChunkPack, f.maxChunkPack, f.optionalParameters), None)
  {
  }

  /**
   * What saveToConfig writes loads back as the same entry without its
   * optional text (and so with the default spawn settings).
   */
  lemma SavedValueRoundTrip(h: Host, e: SpawnListEntry)
    requires RoundTripHost(h) && Valid(h, e)
    ensures Load(h, e, ScalarValue(h, e)) == LoadResult(e.(optionalParameters := "", spawning := SpawnSettings("")), None)
  {
    ScalarValueDecodes(h, e);
    EmptyOptionalParametersGiveDefault(h.isSpawnKey);
  }

  /** The scalar value decodes to the entry's four numbers and no optional text. */
  lemma ScalarValueDecodes(h: Host, e: SpawnListEntry)
    requires RoundTripHost(h)
    ensures Decode(h, ScalarValue(h, e), e.packSize)
         == Some(Fields(e.itemWeight, e.packSize, e.minChunkPack, e.maxChunkPack, ""))
  {
    ScalarValueIsRecord(h, e);
    DecodeRecord(h, IntToString(e.itemWeight), IntToString(e.packSize), IntToString(e.minChunkPack),
                 IntToString(e.maxChunkPack), 0, "", e.packSize);
    assert ScalarValue(h, e) + "" == ScalarValue(h, e);
    ReadsBackDecimal(h, e.itemWeight, e.packSize, "spawnWeight");
    ReadsBackDecimal(h, e.packSize, e.packSize, "packSize");
    ReadsBackDecimal(h, e.minChunkPack, e.packSize, "minChunkPack");
    ReadsBackDecimal(h, e.maxChunkPack, e.packSize, "maxChunkPack");
  }

  /**
   * The repair: a rejected value gives this entry's identity and scalars
   * with empty optional text, and the full default value is written back.
   */
  lemma RepairOnRejectedValue(h: Host, e: SpawnListEntry, stored: string)
    requires Decode(h, stored, e.packSize).None?
    ensures Load(h, e, stored)
         == LoadResult(e.(optionalParameters := "", spawning := SpawnSettings("")), Some(ConfigValue(h, e)))
  {
    EmptyOptionalParametersGiveDefault(h.isSpawnKey);
  }

  /** After a repair the store holds a value that the next load accepts unchanged. */
  lemma RepairedValueLoadsCleanly(h: Host, e: SpawnListEntry, stored: string)
    requires RoundTripHost(h) && Valid(h, e) && OptionalTextOk(e.optionalParameters)
    requires Decode(h, stored, e.packSize).None?
    ensures Load(h, e, stored).rewrite == Some(ConfigValue(h, e))
    ensures Load(h, e, ConfigValue(h, e)) == LoadResult(e, None)
  {
    RoundTrip(h, e);
  }

  /**
   * Three fields are one too few: `10D4D1` is rejected, and so is the same
   * record followed by trailing delimiters (`10D4D1DD`) or by optional text
   * (`10D4D1{spawn:x}`). RepairOnRejectedValue gives what follows.
   */
  lemma ThreeFieldsRejected(h: Host, a: string, b: string, m: string, k: nat, opt: string, fallback: Int32)
    requires h.delimiter != '{'
    requires '{' !in a && '{' !in b && '{' !in m && m != ""
    requires h.delimiter !in a && h.delimiter !in b && h.delimiter !in m
    requires opt == "" || opt[0] == '{'
    ensures Decode(h, a + [h.delimiter] + (b + [h.delimiter] + (m + Repeat(h.delimiter, k))) + opt, fallback).None?
  {
    var d := h.delimiter;
    var rec := a + [d] + (b + [d] + (m + Repeat(d, k)));
    ThreeFieldSplit(a, b, m, k, d);
    ScalarPartOfRecord(rec, opt);
  }

  /** The scalar part of a '{'-free record followed by optional text is the record. */
  lemma ScalarPartOfRecord(rec: string, opt: string)
    requires '{' !in rec && (opt == "" || opt[0] == '{')
    ensures ScalarPart(rec + opt) == rec
  {
    if opt == "" {
      assert rec + opt == rec;
    } else {
      assert rec + opt == rec + ['{'] + opt[1..];
      SplitOnceAt(rec, '{', opt[1..]);
    }
  }

  /** Three delimiter-free fields, the last non-empty, then k delimiters: split gives the three fields. */
  lemma ThreeFieldSplit(a: string, b: string, m: string, k: nat, d: char)
    requires d != '{' && '{' !in a && '{' !in b && '{' !in m && m != ""
    requires d !in a && d !in b && d !in m
    ensures '{' !in a + [d] + (b + [d] + (m + Repeat(d, k)))
    ensures Split(a + [d] + (b + [d] + (m + Repeat(d, k))), d) == [a, b, m]
  {
    var rec := a + [d] + (b + [d] + (m + Repeat(d, k)));
    assert '{' !in rec by {
      assert '{' !in Repeat(d, k);
    }
    PiecesOfThreeFields(a, b, m, k, d);
    assert Split(rec, d) == DropTrailingEmpty([a, b, m] + Empties(k));
    DropAfterNonEmpty([a, b, m], k);
  }

  /**
   * Under the reference parser, every field that is not a decimal numeral
   * becomes the entry's packSize, for all four fields: an unreadable weight
   * becomes the pack size, not the old weight.
   */
  lemma UnreadableFieldsFallBackToPackSize(h: Host, e: SpawnListEntry, a: string, b: string, m: string, x: string)
    requires DelimiterOk(h.delimiter) && h.parseFilteredInteger == ReferenceParse
    requires '{' !in a && '{' !in b && '{' !in m && '{' !in x && x != ""
    requires h.delimiter !in a && h.delimiter !in b && h.delimiter !in m && h.delimiter !in x
    ensures var r := Load(h, e, FourFieldRecord(a, b, m, x, 0, h.delimiter)).entry;
            && (!IsNumeral(a) ==> r.itemWeight == e.packSize)
            && (!IsNumeral(b) ==> r.packSize == e.packSize)
            && (!IsNumeral(m) ==> r.minChunkPack == e.packSize)
            && (!IsNumeral(x) ==> r.maxChunkPack == e.packSize)
            && r.optionalParameters == "" && r.livingClass == e.livingClass && r.pckgName == e.pckgName
  {
    var rec := FourFieldRecord(a, b, m, x, 0, h.delimiter);
    assert rec + "" == rec;
    DecodeRecord(h, a, b, m, x, 0, "", e.packSize);
  }

  /** The field names createFromConfig passes to the parser, in record order. */
  const FieldNames: seq<string> := ["spawnWeight", "packSize", "minChunkPack", "maxChunkPack"]

  /** The text of field j in a record whose field `bad` is unreadable and whose other fields are decimals. */
  function FieldText(values: seq<Int32>, bad: nat, text: string, j: nat): string
    requires |values| == 4 && j < 4
  {
    if j == bad then text else IntToString(values[j])
  }

  /** The four number fields of an entry, in record order. */
  function Numbers(e: SpawnListEntry): seq<Int32> {
    [e.itemWeight, e.packSize, e.minChunkPack, e.maxChunkPack]
  }

  /**
   * The four fields are read independently: with any one field replaced by
   * other text, the three decimal fields keep their values and only that
   * field goes to the parser with packSize as its fallback. A blank last
   * field is the exception, since split drops it and the value is rejected.
   */
  lemma OneUnreadableField(h: Host, e: SpawnListEntry, values: seq<Int32>, bad: nat, text: string)
    requires RoundTripHost(h)
    requires |values| == 4 && bad < 4
    requires '{' !in text && h.delimiter !in text && (bad == 3 ==> text != "")
    ensures var r := Load(h, e, FourFieldRecord(FieldText(values, bad, text, 0), FieldText(values, bad, text, 1),
                                                FieldText(values, bad, text, 2), FieldText(values, bad, text, 3),
                                                0, h.delimiter)).entry;
            && (forall j :: 0 <= j < 4 && j != bad ==> Numbers(r)[j] == values[j])
            && Numbers(r)[bad] == h.parseFilteredInteger(text, e.packSize, FieldNames[bad])
  {
    var d := h.delimiter;
    var t0, t1, t2, t3 := FieldText(values, bad, text, 0), FieldText(values, bad, text, 1),
                          FieldText(values, bad, text, 2), FieldText(values, bad, text, 3);
    FieldTextAvoids(values, bad, text, 0, d);
    FieldTextAvoids(values, bad, text, 1, d);
    FieldTextAvoids(values, bad, text, 2, d);
    FieldTextAvoids(values, bad, text, 3, d);
    var rec := FourFieldRecord(t0, t1, t2, t3, 0, d);
    assert rec + "" == rec;
    DecodeRecord(h, t0, t1, t2, t3, 0, "", e.packSize);
    var parse := h.parseFilteredInteger;
    var f := Fields(parse(t0, e.packSize, "spawnWeight"), parse(t1, e.packSize, "packSize"),
                    parse(t2, e.packSize, "minChunkPack"), parse(t3, e.packSize, "maxChunkPack"), "");
    LoadAccepted(h, e, rec, f);
    var r := Load(h, e, rec).entry;
    assert Numbers(r) == [f.weight, f.packSize, f.minChunkPack, f.maxChunkPack];
    FieldReadBack(h, e, values, bad, text, 0);
    FieldReadBack(h, e, values, bad, text, 1);
    FieldReadBack(h, e, values, bad, text, 2);
    FieldReadBack(h, e, values, bad, text, 3);
  }

  /** A field of such a record holds neither '{' nor the delimiter, and the last one is not empty. */
  lemma FieldTextAvoids(values: seq<Int32>, bad: nat, text: string, j: nat, d: char)
    requires |values| == 4 && bad < 4 && j < 4 && DelimiterOk(d)
    requires '{' !in text && d !in text && (bad == 3 ==> text != "")
    ensures '{' !in FieldText(values, bad, text, j) && d !in FieldText(values, bad, text, j)
    ensures j == 3 ==> FieldText(values, bad, text, j) != ""
  {
    if j != bad {
      IntToStringAvoids(values[j], d);
      IntToStringAvoids(values[j], '{');
    }
  }

  /** Parsing field j gives its decimal value, or the parser's reading of the unreadable text. */
  lemma FieldReadBack(h: Host, e: SpawnListEntry, values: seq<Int32>, bad: nat, text: string, j: nat)
    requires RoundTripHost(h) && |values| == 4 && bad < 4 && j < 4
    ensures j != bad ==> h.parseFilteredInteger(FieldText(values, bad, text, j), e.packSize, FieldNames[j]) == values[j]
    ensures j == bad ==>
              h.parseFilteredInteger(FieldText(values, bad, text, j), e.packSize, FieldNames[j])
              == h.parseFilteredInteger(text, e.packSize, FieldNames[bad])
  {
    if j != bad {
      ReadsBackDecimal(h, values[j], e.packSize, FieldNames[j]);
    }
  }

  /** An entry loaded from an empty store is the entry itself, and its default value is stored. */
  method LoadIntoEmptyStore(h: Host, e: SpawnListEntry, sortByBiome: bool) returns (r: SpawnListEntry, stored: string)
    requires RoundTripHost(h) && Valid(h, e) && OptionalTextOk(e.optionalParameters)
    ensures r == e
    ensures stored == ConfigValue(h, e)
  {
    var config := new Configuration();
    r := CreateFromConfig(h, e, config, sortByBiome);
    RoundTrip(h, e);
    stored := config.properties[SpawnEntryKey(h, e, sortByBiome)];
  }

  // ---------------------------------------------------------------------------
  // Store addressing

  /** The two layouts swap the roles of group id and creature name. */
  lemma KeyRolesSwap(pckgName: string, mobName: string)
    ensures PropertyKeyOf(true, pckgName, mobName) == PropertyKeyOf(false, mobName, pckgName)
  {
  }

  /** In either layout the computed (category, key) pair determines the group id and the creature name. */
  lemma KeyDeterminesIdentity(sortByBiome: bool, p1: string, m1: string, p2: string, m2: string)
    requires PropertyKeyOf(sortByBiome, p1, m1) == PropertyKeyOf(sortByBiome, p2, m2)
    ensures p1 == p2 && m1 == m2
  {
    var n := |CategoryPrefix|;
    var k1, k2 := PropertyKeyOf(sortByBiome, p1, m1).0, PropertyKeyOf(sortByBiome, p2, m2).0;
    assert k1[n..] == k2[n..];
    if sortByBiome {
      assert k1[n..] == p1 && k2[n..] == p2;
    } else {
      assert k1[n..] == m1 && k2[n..] == m2;
    }
  }

  /** The two layouts address an entry by the same property only when its group id and creature name coincide. */
  lemma LayoutsShareKeyIff(pckgName: string, mobName: string)
    ensures PropertyKeyOf(true, pckgName, mobName) == PropertyKeyOf(false, pckgName, mobName) <==> pckgName == mobName
  {
    if PropertyKeyOf(true, pckgName, mobName) == PropertyKeyOf(false, pckgName, mobName) {
      assert pckgName == mobName;
    }
  }

  // ---------------------------------------------------------------------------
  // Identity

  /** Equality is an equivalence on entries. */
  lemma EqualsIsEquivalence(a: SpawnListEntry, b: SpawnListEntry, c: SpawnListEntry)
    ensures Equals(a, Entry(a))
    ensures Equals(a, Entry(b)) ==> Equals(b, Entry(a))
    ensures Equals(a, Entry(b)) && Equals(b, Entry(c)) ==> Equals(a, Entry(c))
  {
  }

  /** Weight, pack sizes and optional text play no part in equality. */
  lemma EqualsIgnoresTunables(e: SpawnListEntry, w: Int32, p: Int32, mn: Int32, mx: Int32, opt: string, s: SpawnSettings)
    ensures Equals(e, Entry(e.(itemWeight := w, packSize := p, minChunkPack := mn, maxChunkPack := mx,
                               optionalParameters := opt, spawning := s)))
  {
  }

  /** Equal entries hash alike. */
  lemma EqualEntriesHashAlike(h: Host, a: SpawnListEntry, b: SpawnListEntry)
    requires Equals(a, Entry(b))
    ensures IdentityHash(h, a.livingClass, a.pckgName) == IdentityHash(h, b.livingClass, b.pckgName)
  {
  }
}
