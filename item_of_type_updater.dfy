/**
 * `update_item_of_types` end to end, once the settings are read and the
 * CSV file is parsed: extract the records, build the patches, send them.
 */
module ItemOfTypeUpdater {
  import opened Wrappers
  import opened CsvContent
  import opened ScriptConfig
  import opened ApiIdLookup
  import opened PatchPayloads
  import opened PatchExecution

  /** Either the script exits at the column check, or it builds and sends the patches. */
  datatype RunOutcome =
    | Aborted(error: ExtractError)
    | Completed(patches: seq<Patch>, report: PatchReport)

  /**
   * A missing column ends the run before any search or patch; otherwise
   * the patches are those of the row loop over the extracted records, and
   * they are sent fail-fast.
   */
  method UpdateItemOfTypes(resolver: ItemIdResolver, settings: ScriptSettings,
                           header: seq<string>, csvRows: seq<CsvRow>, accepts: PatchOracle)
    returns (outcome: RunOutcome)
    requires resolver.Valid()
    requires RowsHaveHeader(header, csvRows)
    modifies resolver
    ensures resolver.Valid()
    ensures settings.csvSourceHeader !in header ==>
              outcome == Aborted(MissingSourceColumn(settings.csvSourceHeader))
    ensures settings.csvSourceHeader in header && settings.csvDestinationHeader !in header ==>
              outcome == Aborted(MissingDestinationColumn(settings.csvDestinationHeader))
    ensures outcome.Aborted? ==>
              resolver.cache == old(resolver.cache) && resolver.searches == old(resolver.searches)
    ensures outcome.Completed? ==>
              && settings.csvSourceHeader in header && settings.csvDestinationHeader in header
              && HasColumns(csvRows, settings.csvSourceHeader, settings.csvDestinationHeader)
              && var rows := RowRecords(csvRows, settings.csvSourceHeader, settings.csvDestinationHeader);
                 var st := BuildAll(settings, resolver.search, old(resolver.cache), rows);
                 && outcome.patches == st.patches
                 && resolver.cache == st.cache
                 && resolver.searches == old(resolver.searches) + st.searches
                 && outcome.report == FailFastReport(st.patches, accepts)
  {
    var extracted := ProcessCsvContent(header, csvRows, settings.csvSourceHeader, settings.csvDestinationHeader);
    if extracted.Failure? {
      return Aborted(extracted.error);
    }
    var patchPayloads := BuildPatchPayloads(resolver, settings, extracted.value.content);
    var report := ExecutePatches(patchPayloads, accepts);
    outcome := Completed(patchPayloads, report);
  }
}
