/** SyncVersionExtensions: copying one language version of a record. */
module SyncVersions {
  import opened SyncItems

  /**
   * SyncVersion.Clone: a new version with the same language, revision and version number,
   * then every field added in order through AddField.
   */
  method Clone(version: SyncVersion) returns (copy: SyncVersion)
    ensures copy == version
  {
    copy := SyncVersion(version.language, version.version, version.revision, []);
    for i := 0 to |version.fields|
      invariant copy == version.(fields := version.fields[..i])
    {
      var field := version.fields[i];
      copy := copy.(fields := copy.fields + [SyncField(field.fieldId, field.fieldName, field.fieldKey, field.fieldValue)]);
    }
    assert version.fields[..|version.fields|] == version.fields;
  }
}
