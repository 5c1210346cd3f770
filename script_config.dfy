/** The `SCRIPT_SETTINGS` section of the configuration, once read. */
module ScriptConfig {

  datatype ScriptSettings = ScriptSettings(
    destinationItemOfTypeField: string,  // the field path segment every patch sets
    csvSourceHeader: string,             // CSV column holding the source key
    csvDestinationHeader: string,        // CSV column holding the destination key
    usingApiId: bool,                    // the cells already hold API ids
    sourceFieldName: string,             // field searched to resolve a source key
    destinationFieldName: string         // field searched to resolve a destination key
  )
}
