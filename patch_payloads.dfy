/**
 * The row loop of `update_item_of_types`: each CSV record becomes at most
 * one JSON-patch "add" on the destination item, in row order. In API-id
 * mode the cells are the ids; in lookup mode the source is resolved before
 * the destination and the row is dropped at the first failed resolution.
 */
module PatchPayloads {
  import opened Wrappers
  import opened PyText
  import opened CsvContent
  import opened ScriptConfig
  import opened ApiIdLookup

  /** A source or destination as the loop holds it: cell text, or an id a search returned. */
  datatype Ident = CellText(text: string) | ApiId(id: int)

  /** Python's `str()` of an identifier. */
  function Str(x: Ident): string {
    match x
    case CellText(text) => text
    case ApiId(id) => IntToString(id)
  }

  /** The `payload` dict: `{'op': …, 'path': …, 'value': …}`. */
  datatype Payload = Payload(op: string, path: string, value: string)

  /** An entry of `patch_payloads`: `{'id': …, 'payload': …}`. */
  datatype Patch = Patch(id: string, payload: Payload)

  function FieldPath(field: string): string {
    "/fields/" + field
  }

  /** The patch that sets `field` of item `destination` to `source`. */
  function MakePatch(field: string, source: Ident, destination: Ident): (p: Patch)
    ensures p.payload.op == "add"
    ensures "/fields/" <= p.payload.path && p.payload.path[8..] == field
    ensures destination.CellText? ==> p.id == destination.text
    ensures source.CellText? ==> p.payload.value == source.text
    ensures destination.ApiId? ==> p.id == IntToString(destination.id)
    ensures source.ApiId? ==> p.payload.value == IntToString(source.id)
  {
    Patch(Str(destination), Payload("add", FieldPath(field), Str(source)))
  }

  /** The example of a patch: field itemType, source 42, destination 99. */
  lemma MakePatchExample()
    ensures MakePatch("itemType", ApiId(42), ApiId(99)) == Patch("99", Payload("add", "/fields/itemType", "42"))
    ensures MakePatch("itemType", CellText("42"), CellText("99")) == Patch("99", Payload("add", "/fields/itemType", "42"))
  {
  }

  /**
   * A patch built from two resolved ids names them both: its target is
   * the destination id and its value reads back as the source id.
   */
  lemma PatchRecoversIds(field: string, source: int, destination: int)
    ensures var p := MakePatch(field, ApiId(source), ApiId(destination));
            ParseInt(p.id) == Some(destination) && ParseInt(p.payload.value) == Some(source)
            && p.payload.path[..8] == "/fields/" && p.payload.path[8..] == field
  {
    ParseIntToString(source);
    ParseIntToString(destination);
  }

  /** The loop's state after some rows: `patch_payloads`, the cache, and the searches issued. */
  datatype BuildState = BuildState(patches: seq<Patch>, cache: IdCache, searches: seq<SearchCall>)

  /** Every value cached in `c` is cached with the same answer in `c'`. */
  predicate Extends(c: IdCache, c': IdCache) {
    forall v :: v in c ==> v in c' && c'[v] == c[v]
  }

  /** One pass of the loop body over `row`. */
  function ProcessRow(settings: ScriptSettings, search: SearchOracle, st: BuildState, row: RowRecord): (r: BuildState)
    ensures Extends(st.cache, r.cache)
    ensures st.searches <= r.searches && |r.searches| <= |st.searches| + 2
    ensures st.patches <= r.patches && |r.patches| <= |st.patches| + 1
    ensures !settings.usingApiId && ResolveId(search, st.cache, settings.sourceFieldName, row.source).id.None? ==>
              var s := ResolveId(search, st.cache, settings.sourceFieldName, row.source);
              r == BuildState(st.patches, s.cache, st.searches + s.searched)
  {
    var field := settings.destinationItemOfTypeField;
    if settings.usingApiId then
      BuildState(st.patches + [MakePatch(field, CellText(row.source), CellText(row.destination))], st.cache, st.searches)
    else
      var s := ResolveId(search, st.cache, settings.sourceFieldName, row.source);
      if s.id.None? then
        BuildState(st.patches, s.cache, st.searches + s.searched)
      else
        var d := ResolveId(search, s.cache, settings.destinationFieldName, row.destination);
        if d.id.None? then
          BuildState(st.patches, d.cache, st.searches + s.searched + d.searched)
        else
          BuildState(st.patches + [MakePatch(field, ApiId(s.id.value), ApiId(d.id.value))],
                     d.cache, st.searches + s.searched + d.searched)
  }

  /** The loop over all of `rows`, starting from the cache `cache0` and an empty payload list. */
  function BuildAll(settings: ScriptSettings, search: SearchOracle, cache0: IdCache, rows: seq<RowRecord>): (r: BuildState)
    ensures |r.patches| <= |rows|
    ensures |r.searches| <= 2 * |rows|
    decreases |rows|
  {
    if rows == [] then BuildState([], cache0, [])
    else ProcessRow(settings, search, BuildAll(settings, search, cache0, rows[..|rows| - 1]), rows[|rows| - 1])
  }

  // -----------------------------------------------------------------------
  // API-id mode
  // -----------------------------------------------------------------------

  /**
   * In API-id mode nothing is searched, the cache is untouched, and each
   * row gives exactly one patch built from its own cells, in row order.
   */
  lemma {:induction false} ApiIdModePatchesEveryRow(settings: ScriptSettings, search: SearchOracle, cache0: IdCache, rows: seq<RowRecord>)
    requires settings.usingApiId
    ensures var st := BuildAll(settings, search, cache0, rows);
            && st.cache == cache0 && st.searches == []
            && |st.patches| == |rows|
            && forall i :: 0 <= i < |rows| ==>
                 st.patches[i] == MakePatch(settings.destinationItemOfTypeField, CellText(rows[i].source), CellText(rows[i].destination))
    decreases |rows|
  {
    if rows != [] {
      var prefix := rows[..|rows| - 1];
      ApiIdModePatchesEveryRow(settings, search, cache0, prefix);
      assert forall i :: 0 <= i < |prefix| ==> prefix[i] == rows[i];
    }
  }

  // -----------------------------------------------------------------------
  // Both modes
  // -----------------------------------------------------------------------

  /** Every patch is an "add" on `/fields/<destination_item_of_type_field>`. */
  lemma {:induction false} PayloadShape(settings: ScriptSettings, search: SearchOracle, cache0: IdCache, rows: seq<RowRecord>)
    ensures var st := BuildAll(settings, search, cache0, rows);
            forall p :: p in st.patches ==>
              p.payload.op == "add" && p.payload.path == "/fields/" + settings.destinationItemOfTypeField
    decreases |rows|
  {
    if rows != [] {
      PayloadShape(settings, search, cache0, rows[..|rows| - 1]);
    }
  }

  /**
   * What the searches so far say about the cache: no value searched twice,
   * none that was cached at the start, and the cache holds exactly the
   * starting values and the searched ones.
   */
  predicate SearchedOnce(cache0: IdCache, st: BuildState) {
    && DistinctValues(st.searches)
    && SearchedValues(st.searches) !! cache0.Keys
    && st.cache.Keys == cache0.Keys + SearchedValues(st.searches)
  }

  lemma ResolveKeepsSearchedOnce(search: SearchOracle, cache0: IdCache, st: BuildState, fieldName: string, fieldValue: string)
    requires SearchedOnce(cache0, st)
    ensures var r := ResolveId(search, st.cache, fieldName, fieldValue);
            SearchedOnce(cache0, BuildState(st.patches, r.cache, st.searches + r.searched))
  {
    var r := ResolveId(search, st.cache, fieldName, fieldValue);
    if fieldValue in st.cache {
      assert st.searches + r.searched == st.searches;
    } else {
      SearchedValuesAppend(st.searches, SearchCall(fieldName, fieldValue));
      var all := st.searches + r.searched;
      forall i, j | 0 <= i < j < |all| ensures all[i].fieldValue != all[j].fieldValue {
        if j == |st.searches| {
          assert all[i] == st.searches[i];
          assert st.searches[i].fieldValue in SearchedValues(st.searches);
        }
      }
    }
  }

  lemma ProcessRowKeepsSearchedOnce(settings: ScriptSettings, search: SearchOracle, cache0: IdCache, st: BuildState, row: RowRecord)
    requires SearchedOnce(cache0, st)
    ensures SearchedOnce(cache0, ProcessRow(settings, search, st, row))
  {
    if !settings.usingApiId {
      var s := ResolveId(search, st.cache, settings.sourceFieldName, row.source);
      ResolveKeepsSearchedOnce(search, cache0, st, settings.sourceFieldName, row.source);
      var st1 := BuildState(st.patches, s.cache, st.searches + s.searched);
      if s.id.Some? {
        ResolveKeepsSearchedOnce(search, cache0, st1, settings.destinationFieldName, row.destination);
      }
    }
  }

  /**
   * Each distinct field value is searched for at most once in a run, and
   * never when it was already cached at the start; afterwards the cache
   * holds exactly the starting values and the searched ones.
   */
  lemma {:induction false} AtMostOneSearchPerValue(settings: ScriptSettings, search: SearchOracle, cache0: IdCache, rows: seq<RowRecord>)
    ensures var st := BuildAll(settings, search, cache0, rows);
            && DistinctValues(st.searches)
            && SearchedValues(st.searches) !! cache0.Keys
            && st.cache.Keys == cache0.Keys + SearchedValues(st.searches)
    decreases |rows|
  {
    if rows == [] {
      assert SearchedValues([]) == {};
    } else {
      var prefix := rows[..|rows| - 1];
      AtMostOneSearchPerValue(settings, search, cache0, prefix);
      ProcessRowKeepsSearchedOnce(settings, search, cache0, BuildAll(settings, search, cache0, prefix), rows[|rows| - 1]);
    }
  }

  // -----------------------------------------------------------------------
  // Lookup mode
  // -----------------------------------------------------------------------

  /** The lookups the loop made for `row` are answered by `c`. */
  predicate RowCovered(c: IdCache, row: RowRecord) {
    row.source in c && (c[row.source].Some? ==> row.destination in c)
  }

  /**
   * Every row's source is cached and, when it resolved, so is its
   * destination: the lookups the loop performed are all answered by `c`.
   */
  predicate Covered(c: IdCache, rows: seq<RowRecord>) {
    forall i :: 0 <= i < |rows| ==> RowCovered(c, rows[i])
  }

  /** The patch a fixed id map gives `row`: one when its source and its destination both map to an id. */
  function RowPatch(field: string, c: IdCache, row: RowRecord): seq<Patch> {
    if row.source in c && c[row.source].Some? && row.destination in c && c[row.destination].Some?
    then [MakePatch(field, ApiId(c[row.source].value), ApiId(c[row.destination].value))]
    else []
  }

  /** The patches a fixed id map yields for `rows`, in row order. */
  function ResolvedPatches(field: string, c: IdCache, rows: seq<RowRecord>): seq<Patch>
    decreases |rows|
  {
    if rows == [] then []
    else ResolvedPatches(field, c, rows[..|rows| - 1]) + RowPatch(field, c, rows[|rows| - 1])
  }

  /** Adding entries to an id map does not change the patches of rows it already covered. */
  lemma {:induction false} ResolvedPatchesStable(field: string, c: IdCache, c': IdCache, rows: seq<RowRecord>)
    requires Covered(c, rows) && Extends(c, c')
    ensures ResolvedPatches(field, c, rows) == ResolvedPatches(field, c', rows)
    decreases |rows|
  {
    if rows != [] {
      var prefix := rows[..|rows| - 1];
      assert forall i :: 0 <= i < |prefix| ==> prefix[i] == rows[i];
      ResolvedPatchesStable(field, c, c', prefix);
      assert RowCovered(c, rows[|rows| - 1]);
    }
  }

  lemma CoveredExtends(c: IdCache, c': IdCache, rows: seq<RowRecord>)
    requires rows != []
    requires Covered(c, rows[..|rows| - 1]) && Extends(c, c') && RowCovered(c', rows[|rows| - 1])
    ensures Covered(c', rows)
  {
    forall i | 0 <= i < |rows|
      ensures RowCovered(c', rows[i])
    {
      if i < |rows| - 1 {
        assert RowCovered(c, rows[..|rows| - 1][i]);
      }
    }
  }

  /** One lookup-mode row: the cache grows, covers the row, and the row's patch is the cache's. */
  lemma ProcessRowLookup(settings: ScriptSettings, search: SearchOracle, st: BuildState, row: RowRecord)
    requires !settings.usingApiId
    ensures var r := ProcessRow(settings, search, st, row);
            && Extends(st.cache, r.cache)
            && RowCovered(r.cache, row)
            && r.patches == st.patches + RowPatch(settings.destinationItemOfTypeField, r.cache, row)
  {
  }

  /**
   * In lookup mode the loop's output is exactly the patches of the final
   * cache: a row yields a patch iff its source and its destination both
   * resolved, with the resolved ids, in row order; the cache only grows.
   */
  lemma {:induction false} LookupModePatches(settings: ScriptSettings, search: SearchOracle, cache0: IdCache, rows: seq<RowRecord>)
    requires !settings.usingApiId
    ensures var st := BuildAll(settings, search, cache0, rows);
            && Extends(cache0, st.cache)
            && Covered(st.cache, rows)
            && st.patches == ResolvedPatches(settings.destinationItemOfTypeField, st.cache, rows)
    decreases |rows|
  {
    if rows != [] {
      var field := settings.destinationItemOfTypeField;
      var prefix := rows[..|rows| - 1];
      var row := rows[|rows| - 1];
      LookupModePatches(settings, search, cache0, prefix);
      var st0 := BuildAll(settings, search, cache0, prefix);
      var st := ProcessRow(settings, search, st0, row);
      assert BuildAll(settings, search, cache0, rows) == st;
      ProcessRowLookup(settings, search, st0, row);
      ResolvedPatchesStable(field, st0.cache, st.cache, prefix);
      CoveredExtends(st0.cache, st.cache, rows);
    }
  }

  // -----------------------------------------------------------------------
  // When the memo is invisible, and when it is not
  // -----------------------------------------------------------------------

  /** Every entry of `c` is what a search on `fieldName` would answer for its value. */
  predicate SoundFor(search: SearchOracle, fieldName: string, c: IdCache) {
    forall v :: v in c ==> c[v] == UniqueHit(search(LuceneQuery(fieldName, v)))
  }

  /** The patches a run would give with no memo at all, every lookup searching `fieldName`. */
  function UncachedPatches(search: SearchOracle, fieldName: string, field: string, rows: seq<RowRecord>): seq<Patch>
    decreases |rows|
  {
    if rows == [] then []
    else
      var row := rows[|rows| - 1];
      var s := UniqueHit(search(LuceneQuery(fieldName, row.source)));
      var d := UniqueHit(search(LuceneQuery(fieldName, row.destination)));
      UncachedPatches(search, fieldName, field, rows[..|rows| - 1]) +
        (if s.Some? && d.Some? then [MakePatch(field, ApiId(s.value), ApiId(d.value))] else [])
  }

  lemma ProcessRowKeepsSound(settings: ScriptSettings, search: SearchOracle, st: BuildState, row: RowRecord)
    requires !settings.usingApiId && settings.sourceFieldName == settings.destinationFieldName
    requires SoundFor(search, settings.sourceFieldName, st.cache)
    ensures SoundFor(search, settings.sourceFieldName, ProcessRow(settings, search, st, row).cache)
  {
    var s := ResolveId(search, st.cache, settings.sourceFieldName, row.source);
    assert SoundFor(search, settings.sourceFieldName, s.cache);
  }

  lemma {:induction false} BuildAllSound(settings: ScriptSettings, search: SearchOracle, cache0: IdCache, rows: seq<RowRecord>)
    requires !settings.usingApiId && settings.sourceFieldName == settings.destinationFieldName
    requires SoundFor(search, settings.sourceFieldName, cache0)
    ensures SoundFor(search, settings.sourceFieldName, BuildAll(settings, search, cache0, rows).cache)
    decreases |rows|
  {
    if rows != [] {
      BuildAllSound(settings, search, cache0, rows[..|rows| - 1]);
      ProcessRowKeepsSound(settings, search, BuildAll(settings, search, cache0, rows[..|rows| - 1]), rows[|rows| - 1]);
    }
  }

  lemma {:induction false} SoundResolvedPatches(search: SearchOracle, fieldName: string, field: string, c: IdCache, rows: seq<RowRecord>)
    requires SoundFor(search, fieldName, c) && Covered(c, rows)
    ensures ResolvedPatches(field, c, rows) == UncachedPatches(search, fieldName, field, rows)
    decreases |rows|
  {
    if rows != [] {
      var prefix := rows[..|rows| - 1];
      assert forall i :: 0 <= i < |prefix| ==> prefix[i] == rows[i];
      SoundResolvedPatches(search, fieldName, field, c, prefix);
    }
  }

  /**
   * When sources and destinations are looked up under the same field
   * name, starting from the empty map (or any map that agrees with the
   * search), the memo changes only how often the search is called, not
   * which patches come out.
   */
  lemma SameFieldMemoIsTransparent(settings: ScriptSettings, search: SearchOracle, cache0: IdCache, rows: seq<RowRecord>)
    requires !settings.usingApiId && settings.sourceFieldName == settings.destinationFieldName
    requires SoundFor(search, settings.sourceFieldName, cache0)
    ensures BuildAll(settings, search, cache0, rows).patches
            == UncachedPatches(search, settings.sourceFieldName, settings.destinationItemOfTypeField, rows)
  {
    LookupModePatches(settings, search, cache0, rows);
    BuildAllSound(settings, search, cache0, rows);
    var st := BuildAll(settings, search, cache0, rows);
    SoundResolvedPatches(search, settings.sourceFieldName, settings.destinationItemOfTypeField, st.cache, rows);
  }

  /**
   * Under different field names the memo answers a destination value with
   * whatever that value resolved to as a source: here both cells read "X",
   * field A finds item 1 and field B would find item 2, yet the patch goes
   * to item 1.
   */
  lemma SharedCacheAcrossFields()
    ensures var search := (q: string) => if q == LuceneQuery("A", "X") then [1]
                                         else if q == LuceneQuery("B", "X") then [2] else [];
            var settings := ScriptSettings("itemType", "src", "dst", false, "A", "B");
            && search(LuceneQuery("B", "X")) == [2]
            && BuildAll(settings, search, map[], [RowRecord(0, "X", "X")]).patches
               == [MakePatch("itemType", ApiId(1), ApiId(1))]
  {
    var search := (q: string) => if q == LuceneQuery("A", "X") then [1]
                                 else if q == LuceneQuery("B", "X") then [2] else [];
    var settings := ScriptSettings("itemType", "src", "dst", false, "A", "B");
    var rows := [RowRecord(0, "X", "X")];
    assert LuceneQuery("B", "X")[0] == 'B' != 'A' == LuceneQuery("A", "X")[0];
    assert rows[..0] == [];
    var s := ResolveId(search, map[], "A", "X");
    assert s.id == Some(1);
  }

  // -----------------------------------------------------------------------
  // The loop itself
  // -----------------------------------------------------------------------

  lemma SeqAppendAssoc<T>(a: seq<T>, b: seq<T>, c: seq<T>)
    ensures a + b + c == a + (b + c)
  {
  }

  lemma BuildAllStep(settings: ScriptSettings, search: SearchOracle, cache0: IdCache, rows: seq<RowRecord>, i: nat)
    requires i < |rows|
    ensures BuildAll(settings, search, cache0, rows[..i + 1])
            == ProcessRow(settings, search, BuildAll(settings, search, cache0, rows[..i]), rows[i])
  {
    assert rows[..i + 1][..i] == rows[..i];
  }

  /**
   * The body of the row loop for one row: appends the row's patch, if any,
   * to `patches`, resolving through `resolver` in lookup mode.
   */
  method AddRowPatch(resolver: ItemIdResolver, settings: ScriptSettings, ghost st: BuildState, patches: seq<Patch>, row: RowRecord)
    returns (patches': seq<Patch>, ghost issued: seq<SearchCall>)
    requires resolver.Valid()
    requires st.patches == patches && st.cache == resolver.cache
    modifies resolver
    ensures resolver.Valid()
    ensures resolver.searches == old(resolver.searches) + issued
    ensures ProcessRow(settings, resolver.search, st, row) == BuildState(patches', resolver.cache, st.searches + issued)
  {
    var field := settings.destinationItemOfTypeField;
    if settings.usingApiId {
      return patches + [MakePatch(field, CellText(row.source), CellText(row.destination))], [];
    }
    ghost var s := ResolveId(resolver.search, st.cache, settings.sourceFieldName, row.source);
    var sourceId := resolver.GetApiId(settings.sourceFieldName, row.source);
    if sourceId.None? {
      return patches, s.searched;
    }
    ghost var d := ResolveId(resolver.search, s.cache, settings.destinationFieldName, row.destination);
    var destinationId := resolver.GetApiId(settings.destinationFieldName, row.destination);
    SeqAppendAssoc(old(resolver.searches), s.searched, d.searched);
    SeqAppendAssoc(st.searches, s.searched, d.searched);
    issued := s.searched + d.searched;
    if destinationId.None? {
      return patches, issued;
    }
    patches' := patches + [MakePatch(field, ApiId(sourceId.value), ApiId(destinationId.value))];
  }

  /**
   * Lines 44-72 of the script: builds `patch_payloads` row by row, calling
   * `get_api_id` through `resolver` in lookup mode.
   */
  method BuildPatchPayloads(resolver: ItemIdResolver, settings: ScriptSettings, rows: seq<RowRecord>)
    returns (patches: seq<Patch>)
    requires resolver.Valid()
    modifies resolver
    ensures resolver.Valid()
    ensures var st := BuildAll(settings, resolver.search, old(resolver.cache), rows);
            && patches == st.patches
            && resolver.cache == st.cache
            && resolver.searches == old(resolver.searches) + st.searches
  {
    ghost var cache0 := resolver.cache;
    ghost var searches0 := resolver.searches;
    ghost var issued: seq<SearchCall> := [];
    patches := [];
    for i := 0 to |rows|
      invariant resolver.Valid()
      invariant resolver.searches == searches0 + issued
      invariant BuildAll(settings, resolver.search, cache0, rows[..i]) == BuildState(patches, resolver.cache, issued)
    {
      BuildAllStep(settings, resolver.search, cache0, rows, i);
      ghost var more;
      patches, more := AddRowPatch(resolver, settings, BuildState(patches, resolver.cache, issued), patches, rows[i]);
      SeqAppendAssoc(searches0, issued, more);
      issued := issued + more;
    }
    assert rows[..|rows|] == rows;
  }
}
