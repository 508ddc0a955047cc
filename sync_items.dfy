/**
 * The serialized records (Sitecore's SyncItem, SyncVersion and SyncField, as values) and
 * the extension methods of SyncItemExtensions that read them.
 */
module SyncItems {
  import opened Outcomes
  import opened Text
  import opened Ids

  datatype SyncField = SyncField(fieldId: string, fieldName: string, fieldKey: string, fieldValue: string)

  /** One language version; `version` is the number as the file stores it, as text. */
  datatype SyncVersion = SyncVersion(language: string, version: string, revision: string, fields: seq<SyncField>)

  /** One serialized item. Every ID is the text found in the file; nothing guarantees it parses. */
  datatype SyncItem = SyncItem(
    id: string,
    parentId: string,
    templateId: string,
    templateName: string,
    name: string,
    itemPath: string,
    databaseName: string,
    masterId: string,
    branchId: string,
    sharedFields: seq<SyncField>,
    versions: seq<SyncVersion>)

  /** A version address: a language name and a version number. */
  datatype VersionUri = VersionUri(language: string, number: int)

  /** GetSitecoreId: the record's ID, or ArgumentOutOfRangeException when its text does not parse. */
  function GetSitecoreId(item: SyncItem): (r: Result<Id>)
    ensures r.Ok? <==> IsId(item.id)
    ensures r.Ok? ==> r.value == item.id
    ensures r.Throws? ==> r.failure == ArgumentOutOfRange
  {
    if IsId(item.id) then Ok(item.id) else Throws(ArgumentOutOfRange)
  }

  /** GetSitecoreParentId: the same for the parent ID. */
  function GetSitecoreParentId(item: SyncItem): (r: Result<Id>)
    ensures r.Ok? <==> IsId(item.parentId)
    ensures r.Ok? ==> r.value == item.parentId
    ensures r.Throws? ==> r.failure == ArgumentOutOfRange
  {
    if IsId(item.parentId) then Ok(item.parentId) else Throws(ArgumentOutOfRange)
  }

  /** Does version `v` answer to `uri`? Language ignoring case, number as exact invariant text. */
  predicate Answers(v: SyncVersion, uri: VersionUri)
  {
    EqualsIgnoreCase(v.language, uri.language) && v.version == DecimalString(uri.number)
  }

  /** Position of the first version that answers to `uri` (FirstOrDefault). */
  function VersionIndex(versions: seq<SyncVersion>, uri: VersionUri): (r: Option<nat>)
    ensures r.Some? ==> r.value < |versions| && Answers(versions[r.value], uri)
    ensures r.Some? ==> forall j | 0 <= j < r.value :: !Answers(versions[j], uri)
    ensures r.None? ==> forall j | 0 <= j < |versions| :: !Answers(versions[j], uri)
    decreases |versions|
  {
    if |versions| == 0 then None
    else if Answers(versions[0], uri) then Some(0)
    else match VersionIndex(versions[1..], uri)
      case None => None
      case Some(k) => Some(k + 1)
  }

  /** GetVersion: the first version of `item` that answers to `uri`, or None. */
  function GetVersion(item: SyncItem, uri: VersionUri): Option<SyncVersion>
  {
    match VersionIndex(item.versions, uri)
    case None => None
    case Some(k) => Some(item.versions[k])
  }

  /** A version that GetVersion finds has the language asked for and a version text that parses back to the number asked for. */
  lemma GetVersionFindsTheNumber(item: SyncItem, uri: VersionUri)
    ensures GetVersion(item, uri).Some? ==>
      var v := GetVersion(item, uri).value;
      v in item.versions && EqualsIgnoreCase(v.language, uri.language) && ParseInt(v.version) == Some(uri.number)
  {
    ParseDecimalString(uri.number);
  }

  /** GetVersion finds something exactly when some version answers to `uri`. */
  lemma GetVersionComplete(item: SyncItem, uri: VersionUri)
    ensures GetVersion(item, uri).Some? <==> exists v | v in item.versions :: Answers(v, uri)
  {
    if v :| v in item.versions && Answers(v, uri) {
      var k :| 0 <= k < |item.versions| && item.versions[k] == v;
    }
  }

  /** The match is textual: a version stored as "01" is never found, whatever number is asked for. */
  lemma PaddedVersionIsNotFound(lang: string, fields: seq<SyncField>, uri: VersionUri)
    ensures !Answers(SyncVersion(lang, "01", "", fields), uri)
  {
    DecimalStringIsNotPadded(uri.number);
  }
}
