# Rhino serialization store, modelled in Dafny

Rhino is a Sitecore data provider. It serves items from serialized `.item` files on disk
instead of from a SQL database. This project models its core and proves properties of the model:

- the in-memory record index (`SerializedIndex`) with its lazily filled lookup caches;
- the store facade over the disk (`SerializedDatabase`): save, delete, copy, and a move that rewrites descendants;
- the include/exclude rule engine (`SerializationPresetFilter`, `FilterResult`);
- the record helpers (`SyncItemExtensions`, `SyncVersionExtensions`);
- the three provider adapters:
  - `RhinoSerializationDataProvider` is the sole provider of a database;
  - `SerializationDataProvider` is one provider in a chain and declines what it does not hold;
  - `FilteredSerializationDataProvider` gates the second by a preset filter;
- `WatcherDisabler`, which silences the file watcher while the store writes;
- the `Rhino.Fsck` consistency checker: five tests, a runner, and the result collections.

## How the model is built

This section says which Dafny module holds which part of Rhino, and how each part is represented.

### Values

- Records (`SyncItem`, `SyncVersion`, `SyncField`) are datatypes in `SyncItems`.
- A Sitecore ID is the subset type `Ids.Id`. Its values are the canonical braced upper-case GUID text that `ID.ToString()` produces.
- Exceptions are the `Failure` of a `Result`, in `Outcomes`. A `null` is an `Option`.

### Index and store

- **Index.** `Index.SerializedIndex` is a class over the base list and its five caches.
  - Its `Valid()` is the coherence invariant: every cached entry equals a fresh scan of the list as it is now.
  - Every operation keeps that invariant.
  - `Descendants` gives `GetDescendants` its meaning: a fuel-bounded expansion whose result does not depend on the fuel once it completes.
- **Disk.** The disk is a map from physical path to record, in `Disk`.
  - The physical folder of a `(database, item path)` pair is a function given to `SerializedDatabase`.
  - A move's disk effect is a log of writes and deletes that is then applied.
- **Store.** `Database.SerializedDatabase` holds the disk map and the index.

### Providers

- **Shared rules.** `ProviderRules` holds the record-level rules the providers share: path normalisation, ID and field collection, version numbering and version removal.
- **Provider outcomes.** Each provider operation is specified by a function. It gives the returned value and a `Change`: either nothing is saved, or one record is saved.
  - These functions live in `ProviderOutcomes`, `RhinoProvider`, `SerializationProvider` and `FilteredProvider`.
  - Each provider method is proved to return that value and to leave the store exactly as that `Change` says.
- **Host inputs as parameters.** What a provider asks of the Sitecore host is a parameter of the method:
  - the parent's full path;
  - the template name;
  - the record `ItemSynchronization.BuildSyncItem` builds;
  - the child lists the later providers of the chain answered.

### Fsck

- The filesystem helpers `Rhino.Fsck` calls are the fields of `FsckTests.Host`: `PathUtils.MakeItemPath`, `ItemReference`, `Path.GetDirectoryName` and `File.Exists`.

## Model

| member | source | states |
|---|---|---|
| Index.SerializedIndex.constructor | src/Rhino/Data/SerializedIndex.cs:30-33 | the index holds the given records in order, all five caches are empty, and the coherence invariant holds |
| Index.SerializedIndex.GetItem | src/Rhino/Data/SerializedIndex.cs:35-59 | the result is the first record whose ID equals the ID's text, or none; the ID cache gains an entry only on a hit; the list is unchanged and every cache stays coherent with it |
| Index.SerializedIndex.GetItemByPath | src/Rhino/Data/SerializedIndex.cs:61-84 | the result is the first record whose item path equals the path ignoring case, or none; a hit is cached under the folded path; the list is unchanged and the caches stay coherent |
| Index.SerializedIndex.GetChildren | src/Rhino/Data/SerializedIndex.cs:97-119 | the result is exactly the records whose parent ID is the ID, in list order; empty results are cached too; the caches stay coherent |
| Index.SerializedIndex.GetChildrenByPath | src/Rhino/Data/SerializedIndex.cs:86-95 | an empty path throws; an unknown path gives the empty list; otherwise the children of the record found there; an unparseable ID there throws |
| Index.ChildrenAtPathHang | src/Rhino/Data/SerializedIndex.cs:86-95 | every record GetChildren(path) returns hangs under the record found at that path |
| Index.SerializedIndex.RecursiveGetDescendants | src/Rhino/Data/SerializedIndex.cs:179-191 | the answer is the expansion below the root: the direct children, then each child's own descendants in child order; only the children cache changes, and it stays valid |
| Index.SerializedIndex.AddChildDescendants | src/Rhino/Data/SerializedIndex.cs:184-187 | the loop adds each child's descendants in child order and stops at the first unparseable child ID; only the children cache changes, and it stays valid |
| Index.SerializedIndex.GetDescendants | src/Rhino/Data/SerializedIndex.cs:132-153 | when the parent links below the ID end, the result is the completed expansion, or the exception of an unparseable child ID; the result is cached: a hit leaves the descendants cache as it was, a fresh success stores the result under the ID, a thrown exception stores nothing, and the ID, path and template caches are untouched |
| Index.SerializedIndex.GetDescendantsByPath | src/Rhino/Data/SerializedIndex.cs:121-130 | an empty path throws; an unknown path gives the empty list; otherwise the descendants of the record at that path |
| Index.SerializedIndex.GetItemsWithTemplate | src/Rhino/Data/SerializedIndex.cs:155-177 | the result is exactly the records of that template, in list order; the caches stay coherent |
| Index.SerializedIndex.ResetCacheIndexes | src/Rhino/Data/SerializedIndex.cs:234-260 | all five caches are empty and the list is unchanged |
| Index.SerializedIndex.ClearIndexes | src/Rhino/Data/SerializedIndex.cs:193-209 | only the first record with that ID is removed; on a hit every cache is emptied; on a miss nothing at all changes |
| Index.SerializedIndex.UpdateIndexes | src/Rhino/Data/SerializedIndex.cs:212-227 | the first record with the same ID is overwritten in place, or the record is appended; every cache is emptied |
| Index.SerializedIndex.Count | src/Rhino/Data/SerializedIndex.cs:262-264 | the number of records in the list |
| Scans.UpsertThenFind | src/Rhino/Data/SerializedIndex.cs:216-227 | after an update the ID finds the new record, and the count grows by one exactly when no record had that ID |
| Scans.UpsertKeepsOthers | src/Rhino/Data/SerializedIndex.cs:216-227 | an update holds the new record, only records that were there before, and every record with another ID |
| Scans.UpsertUnique | src/Rhino/Data/SerializedIndex.cs:216-227 | an update keeps IDs unique, and the only record with the new ID is the new record |
| Scans.RemoveFirstIdShape | src/Rhino/Data/SerializedIndex.cs:199-209 | a miss leaves the list as it was; a hit at index k leaves the records before k followed by the records after k, in their order |
| Scans.RemoveFirstIdUnique | src/Rhino/Data/SerializedIndex.cs:199-209 | with unique IDs a removal keeps them unique, the ID is no longer found, and a second removal changes nothing |
| Scans.ChildrenOfMembers | src/Rhino/Data/SerializedIndex.cs:102-118 | a record is among the children of an ID exactly when it is in the list with that parent ID |
| Scans.WithTemplateMembers | src/Rhino/Data/SerializedIndex.cs:160-176 | a record is in a template's list exactly when it is in the list with that template ID |
| Scans.FindByPathFolded | src/Rhino/Data/SerializedIndex.cs:27 | a path lookup finds the same record under any casing of the path |
| Descendants.FuelIrrelevant | src/Rhino/Data/SerializedIndex.cs:179-191 | two expansions of the same root that both end give the same result |
| Descendants.ExpandMonotone | src/Rhino/Data/SerializedIndex.cs:179-191 | once an expansion ends, more depth does not change it |
| Descendants.DescendantsOf | src/Rhino/Data/SerializedIndex.cs:179-191 | when the recursion ends its result is well defined: it is the result of every expansion that ends |
| Descendants.ExpandHasChildren | src/Rhino/Data/SerializedIndex.cs:179-182 | every direct child of the root is in its expansion |
| Descendants.ExpandSound | src/Rhino/Data/SerializedIndex.cs:179-191 | every direct child is in the result, and every record at index k of the result is in the list, has a parseable ID, and has as parent the root or the record at some index before k |
| Descendants.ExpandClosed | src/Rhino/Data/SerializedIndex.cs:179-191 | every child of a record in the result is in the result too |
| Descendants.ExpandNoBadId | src/Rhino/Data/SerializedIndex.cs:179-191 | when every record's ID parses, the recursion never throws |
| Descendants.SelfParentDiverges | src/Rhino/Data/SerializedIndex.cs:179-191 | a record that is its own parent makes the recursion below it run forever |
| Descendants.LeafTerminates | src/Rhino/Data/SerializedIndex.cs:179-191 | below a record with no children the recursion ends at once with the empty list |
| Database.ChildFolderOfItem | src/Rhino/Data/SerializedDatabase.cs:160-164 | stripping the extension from a record's file gives its children folder, and the file itself is not inside that folder |
| Database.SerializedDatabase.constructor | src/Rhino/Data/SerializedDatabase.cs:166-212 | the index holds the loaded records with empty caches, over the given disk |
| Database.SerializedDatabase.Count | src/Rhino/Data/SerializedDatabase.cs:32 | the number of records in the index |
| Database.SerializedDatabase.HasChildren | src/Rhino/Data/SerializedDatabase.cs:34-37 | true exactly when some record has the ID as parent; nothing changes |
| Database.SerializedDatabase.GetChildren | src/Rhino/Data/SerializedDatabase.cs:39-42 | the index's children of the ID |
| Database.SerializedDatabase.GetItemsWithTemplate | src/Rhino/Data/SerializedDatabase.cs:44-47 | the index's records of the template |
| Database.SerializedDatabase.GetItem | src/Rhino/Data/SerializedDatabase.cs:49-52 | the index's first record with the ID |
| Database.SerializedDatabase.GetItemByPath | src/Rhino/Data/SerializedDatabase.cs:54-57 | the index's first record at the path, ignoring case |
| Database.SerializedDatabase.SaveItem | src/Rhino/Data/SerializedDatabase.cs:59-77 | the record is written at its physical path, then the index is updated with it and all caches cleared |
| Database.DeleteOpsIdempotent | src/Rhino/Data/SerializedDatabase.cs:84-90 | deleting an item's file and children folder a second time leaves the disk as the first deletion left it |
| Database.DeleteItemTwice | src/Rhino/Data/SerializedDatabase.cs:80-92 | with unique IDs in the index, a second DeleteItem of the same record changes neither the disk nor the index list |
| Database.SerializedDatabase.DeleteItem | src/Rhino/Data/SerializedDatabase.cs:80-92 | the file and the children folder are deleted; the index then loses only the first record with that ID, so descendants stay indexed; an unparseable ID throws after the files are gone |
| Database.SerializedDatabase.CopyItem | src/Rhino/Data/SerializedDatabase.cs:95-113 | an empty name throws and a missing destination fails the assertion, both without changes; otherwise a record with the copy's ID, name, destination parent and the path destination + "/" + name is saved, and descendants are not copied |
| Database.SerializedDatabase.SaveRebasedDescendants | src/Rhino/Data/SerializedDatabase.cs:137-150 | each descendant is saved with its rebased path and its old file deleted, in snapshot order |
| Database.SerializedDatabase.MoveItem | src/Rhino/Data/SerializedDatabase.cs:116-157 | a missing new parent fails the assertion, with no demand on the parent links; otherwise the descendants are snapshotted, the item is saved under the new parent with path parent + "/" + name, an item without a path that has descendants then throws ArgumentException, each descendant is rebased and saved before its old file goes, and the old file and folder go last |
| Database.RebasedFilesAreOps | src/Rhino/Data/SerializedDatabase.cs:137-150 | the disk after the descendant loop is the replay of its write and delete log |
| Database.DescendantOpsWrite | src/Rhino/Data/SerializedDatabase.cs:143-148 | each descendant's rebased write comes immediately before the delete of its old file |
| Database.MoveUnderMissingParentFails | src/Rhino/Data/SerializedDatabase.cs:118-120 | a move under a missing parent fails the assertion and changes nothing, even for a record that is its own parent, whose descendants never end |
| Database.MovePathlessItemThrows | src/Rhino/Data/SerializedDatabase.cs:122-144 | an item without a path that has a child is saved under its new parent, and then the rebase throws ArgumentException with no descendant touched and the old file kept |
| Database.MoveFilesAreOps | src/Rhino/Data/SerializedDatabase.cs:129-157 | the whole move's disk effect is the replay of one log: item write, descendant steps, then old file and old folder deletes |
| Database.MoveInPlaceErasesFile | src/Rhino/Data/SerializedDatabase.cs:129-157 | moving an item to the place it already has leaves no file for it: the final deletes remove what was just written |
| Database.UpsertAllAppend | src/Rhino/Data/SerializedDatabase.cs:137-150 | saving two runs of descendants is saving the first run, then the second |
| Database.RebaseAll | src/Rhino/Data/SerializedDatabase.cs:144 | one rebased descendant per descendant, in order |
| Disk.LastWriteWins | src/Rhino/Data/SerializedDatabase.cs:63-77 | a file written and not touched later holds the record last written to it |
| Disk.LastDeleteWins | src/Rhino/Data/SerializedDatabase.cs:84-92 | a file deleted, or inside a deleted folder, and not written later, is absent |
| Disk.ApplyAllAppend | src/Rhino/Data/SerializedDatabase.cs:129-157 | replaying two logs in turn is replaying their concatenation |
| Disk.ApplyAllUntouched | src/Rhino/Data/SerializedDatabase.cs:129-157 | a file no operation touches keeps its presence and contents |
| Disk.StripPathOfFile | src/Rhino/Data/SerializedDatabase.cs:88 | stripping the extension from a record file's path gives back the folder path it was made from |
| ItemPaths.ChildPathParts | src/Rhino/Data/SerializedDatabase.cs:123 | for a name without '/', the child path parent + "/" + name has that parent and that last segment |
| ItemPaths.PathIsChildOfParent | src/Rhino/Data/SerializedDatabase.cs:123 | a path with a parent is that parent's child path under its last segment |
| Filtering.Decided | src/Rhino/Filtering/FilterResult.cs:5-8 | the boolean result is included exactly as given and carries no justification |
| Filtering.Rejected | src/Rhino/Filtering/FilterResult.cs:10-14 | a justified result is never included and carries its justification |
| Filtering.ExcludeOrder | src/Rhino/Filtering/SerializationPresetFilter.cs:107-124 | an entry's excludes are tried in the order path, template ID, template name, item ID; the first kind that matches gives its justification; none matching gives inclusion |
| Filtering.UnknownKindsNeverExclude | src/Rhino/Filtering/SerializationPresetFilter.cs:107-124 | excludes of any other kind never exclude |
| Filtering.ExcludeKindIsCaseSensitive | src/Rhino/Filtering/SerializationPresetFilter.cs:131 | an exclude of kind "Path" rather than "path" excludes nothing |
| Filtering.UnjustifiedRejection | src/Rhino/Filtering/SerializationPresetFilter.cs:80-105 | an entry rejects without justification when the database differs or the path is not under the entry's root, ignoring case |
| Filtering.EntryIncludesExtensions | src/Rhino/Filtering/SerializationPresetFilter.cs:80-90 | with no excludes an entry includes every path that extends its root, in its database |
| Filtering.PrefixIsNotSegmentAware | src/Rhino/Filtering/SerializationPresetFilter.cs:83-86 | the root test is a raw prefix: the root "/sitecore/content" includes "/sitecore/contents" |
| Filtering.MoreExcludesRejectMore | src/Rhino/Filtering/SerializationPresetFilter.cs:107-124 | adding excludes to an entry never turns a rejection into an inclusion |
| Filtering.ExcludedGrows | src/Rhino/Filtering/SerializationPresetFilter.cs:107-124 | an exclude of any of the four kinds that matches among some excludes still matches once more excludes are added |
| Filtering.RecordAndCriteriaAgree | src/Rhino/Filtering/SerializationPresetFilter.cs:80-105 | an entry decides a record as it decides the record's path, ID, template and database |
| Filtering.PresetRecordAndCriteriaAgree | src/Rhino/Filtering/SerializationPresetFilter.cs:32-60 | the record overload and the criteria overload of Includes give the same decision for the same data |
| Filtering.Decide | src/Rhino/Filtering/SerializationPresetFilter.cs:32-60 | the loop's result is the preset decision: the first stopping outcome, or else the last justified failure, else the last failure, else inclusion |
| Filtering.Includes | src/Rhino/Filtering/SerializationPresetFilter.cs:32-45 | the record overload's decision over the preset |
| Filtering.IncludesCriteria | src/Rhino/Filtering/SerializationPresetFilter.cs:47-60 | the criteria overload's decision over the preset, which never throws |
| Filtering.EmptyPresetIncludes | src/Rhino/Filtering/SerializationPresetFilter.cs:34-44 | an empty preset includes everything |
| Filtering.IncludedIffSomeEntryIncludes | src/Rhino/Filtering/SerializationPresetFilter.cs:36-44 | the preset includes exactly when some entry includes; a rejection is justified whenever some entry's rejection is |
| Filtering.FirstInclusionDecides | src/Rhino/Filtering/SerializationPresetFilter.cs:36-40 | the first entry that includes decides, whatever the entries after it say |
| Filtering.TotalOutcomesDecide | src/Rhino/Filtering/SerializationPresetFilter.cs:32-45 | when no entry throws, the preset's decision does not throw |
| Filtering.FirstStop | src/Rhino/Filtering/SerializationPresetFilter.cs:36-40 | the index of the first entry that includes or throws, and no earlier entry does |
| Filtering.LastJustified | src/Rhino/Filtering/SerializationPresetFilter.cs:41-43 | the index of the last justified failure before a bound, and no later one before the bound is justified |
| SyncItems.GetSitecoreId | src/Rhino/SyncItemExtensions.cs:13-20 | the ID when it parses, otherwise an ArgumentOutOfRange throw |
| SyncItems.GetSitecoreParentId | src/Rhino/SyncItemExtensions.cs:23-30 | the parent ID when it parses, otherwise an ArgumentOutOfRange throw |
| SyncItems.VersionIndex | src/Rhino/SyncItemExtensions.cs:33-37 | the first version whose language matches ignoring case and whose version text is the number's decimal text; none when there is no such version |
| SyncItems.GetVersionComplete | src/Rhino/SyncItemExtensions.cs:33-37 | a version is found exactly when one answers the language and number |
| SyncItems.GetVersionFindsTheNumber | src/Rhino/SyncItemExtensions.cs:35-37 | a found version's text parses back to the requested number |
| SyncItems.PaddedVersionIsNotFound | src/Rhino/SyncItemExtensions.cs:35-37 | a version stored as "01" never answers a number |
| SyncVersions.Clone | src/Rhino/SyncVersionExtensions.cs:8-22 | the copy has the same language, revision and version, and the same fields in the same order |
| ProviderRules.NormalisePath | src/Rhino/RhinoSerializationDataProvider.cs:76-87 | the normalised path is never empty and never ends in '/' |
| ProviderRules.NormalisePathIdempotent | src/Rhino/RhinoSerializationDataProvider.cs:76-87 | normalising twice is normalising once |
| ProviderRules.NormaliseIgnoresTrailingSlash | src/Rhino/RhinoSerializationDataProvider.cs:76-87 | a trailing '/' does not change the normalised path |
| ProviderRules.ResolvePathFindsRecord | src/Rhino/SerializationDataProvider.cs:80-90 | a path that is not ID text is unresolved exactly when no record is at its normalised path; a resolved ID is that record's |
| ProviderRules.ResolvePathIgnoresTrailingSlash | src/Rhino/SerializationDataProvider.cs:80-90 | a path and the path with '/' appended resolve alike |
| ProviderRules.ResolveRootIsSitecore | src/Rhino/SerializationDataProvider.cs:80-90 | "/" resolves as "/sitecore" |
| ProviderRules.ResolveIdText | src/Rhino/RhinoSerializationDataProvider.cs:76-79 | ID text resolves to itself without a lookup, in both providers |
| ProviderRules.IdsOf | src/Rhino/RhinoSerializationDataProvider.cs:53-68 | the IDs of the records in order, or an ArgumentOutOfRange throw when one does not parse |
| ProviderRules.IdsOfMembers | src/Rhino/RhinoSerializationDataProvider.cs:53-68 | the IDs parse exactly when every record's ID parses, and then hold exactly the records' IDs |
| ProviderRules.CollectIds | src/Rhino/RhinoSerializationDataProvider.cs:59-66 | the loop collects exactly those IDs |
| ProviderRules.FieldsOf | src/Rhino/RhinoSerializationDataProvider.cs:126-148 | one field value per field, in order, or a throw when a field ID does not parse |
| ProviderRules.ItemFieldsOrder | src/Rhino/RhinoSerializationDataProvider.cs:126-148 | the shared fields come first, then the fields of the version matching language and number, if there is one |
| ProviderRules.AddFields | src/Rhino/RhinoSerializationDataProvider.cs:133-146 | the loop appends the fields' values to the list, or throws as the fields do |
| ProviderRules.CollectFields | src/Rhino/RhinoSerializationDataProvider.cs:126-148 | the loops compute the item's field list |
| ProviderRules.CollectVersionKeys | src/Rhino/RhinoSerializationDataProvider.cs:151-167 | one (language, version) pair per version, in order |
| ProviderRules.ParentIdOf | src/Rhino/RhinoSerializationDataProvider.cs:109-118 | none when the item is absent or its parent is the null ID; a throw when the parent ID does not parse; otherwise the parent ID |
| ProviderRules.ParentListsChild | src/Rhino/RhinoSerializationDataProvider.cs:109-118 | a reported parent lists the item among the children of its ID |
| ProviderRules.DefinitionOf | src/Rhino/RhinoSerializationDataProvider.cs:169-182 | a definition with the record's name, template and branch; an empty one of these fails the assertion and an unparseable one throws |
| ProviderRules.NewItemLiesUnderParent | src/Rhino/RhinoSerializationDataProvider.cs:192-214 | a created record carries the given ID, name, template and parent, the path parent + "/" + name and the null master ID, and lies at that path under that parent |
| ProviderRules.MaxVersion | src/Rhino/RhinoSerializationDataProvider.cs:240-242 | Max throws InvalidOperation exactly on an empty list; when every version parses it is one of them and bounds them all |
| ProviderRules.NextVersionNumberIsFresh | src/Rhino/RhinoSerializationDataProvider.cs:230-246 | when the base version exists Max never meets an empty list, and the new number is above the base and above every version of the language |
| ProviderRules.AddedVersionIsFound | src/Rhino/RhinoSerializationDataProvider.cs:230-252 | with the corrected numbering (see Findings), the appended version answers the new number in the base's language, no earlier version does, and the old versions are kept |
| ProviderRules.RemovedVersionShape | src/Rhino/SerializationDataProvider.cs:336-344 | removal succeeds exactly when the version is found, and then leaves the versions before it followed by the versions after it, in their order |
| ProviderRules.WithoutLanguageHidesLanguage | src/Rhino/RhinoSerializationDataProvider.cs:339-343 | after the correct removal no version of the language is found, and exactly the versions of other languages remain |
| ProviderRules.RemoveLanguageVersions | src/Rhino/RhinoSerializationDataProvider.cs:339-343 | the corrected loop removes every version of the language, ignoring case, and keeps the others in order |
| ProviderRules.RemoveVersionsAsWritten | src/Rhino/RhinoSerializationDataProvider.cs:339-343 | the loop as written throws ArgumentOutOfRange whenever the item has a version, and otherwise changes nothing |
| ProviderRules.RemoveVersionsNeverReadsFirst | src/Rhino/RhinoSerializationDataProvider.cs:339-343 | started one lower, the loop would still never look at index 0: a lone version of the language survives |
| ProviderRules.NextVersionNumberAsWrittenDuplicates | src/Rhino/RhinoSerializationDataProvider.cs:230-242 | with "EN" version 2 and "en" version 1 stored and base en#1, the case-sensitive Where gives the new number 2, which GetVersion already answers with the "EN" version |
| ProviderRules.NextVersionNumberAsWrittenFindsNothing | src/Rhino/RhinoSerializationDataProvider.cs:230-242 | a base version stored as "EN" is found for "en", but the case-sensitive Where keeps nothing and Max throws |
| ProviderOutcomes.DefinitionLookup | src/Rhino/SerializationDataProvider.cs:172-185 | none exactly when the store lacks the ID; a definition is that of the record found |
| ProviderOutcomes.ParentLookupListsChild | src/Rhino/SerializationDataProvider.cs:106-122 | a reported parent has the item among its children |
| ProviderOutcomes.CreatedItemIsChild | src/Rhino/SerializationDataProvider.cs:195-212 | the create succeeds exactly when the template is known; the saved record is then found by its ID, is among the parent's children, and has the given name and the path parent + "/" + name |
| ProviderOutcomes.AddedVersionReadsLikeBase | src/Rhino/SerializationDataProvider.cs:238-269 | with the corrected numbering (see Findings): for a positive base, a missing base version fails the assertion and Max never throws; otherwise the number is above the base, the saved record is found by its ID, and its new version is found under that number with the base's fields |
| ProviderOutcomes.AddedFirstVersion | src/Rhino/SerializationDataProvider.cs:260-264 | for a base number up to 0, version 1 is appended and 1 is returned |
| ProviderOutcomes.CopyLiesUnderDestination | src/Rhino/SerializationDataProvider.cs:278-297 | a copy is saved with the copy's ID and name under the destination, at the destination's path + "/" + name |
| ProviderOutcomes.RemoveVersionOutcomeShape | src/Rhino/SerializationDataProvider.cs:329-347 | the item and the version must both exist; the saved record keeps the versions before that version followed by the versions after it, in their order |
| ProviderOutcomes.RemoveVersionsOutcomeHidesLanguage | src/Rhino/SerializationDataProvider.cs:349-367 | after RemoveVersions the language has no version left, with the loop corrected |
| RhinoProvider.RhinoChildIdsAreChildren | src/Rhino/RhinoSerializationDataProvider.cs:49-69 | the empty definition has the empty list; otherwise the listing succeeds exactly when every child's ID parses, holds exactly the children's IDs, and is non-empty exactly when the item has a child |
| RhinoProvider.RhinoWritesNeedTheRecord | src/Rhino/RhinoSerializationDataProvider.cs:219-364 | AddVersion, RemoveVersion, RemoveVersions and SaveItem fail the assertion and change nothing when the record is absent |
| RhinoProvider.RhinoSerializationDataProvider.HasChildren | src/Rhino/RhinoSerializationDataProvider.cs:42-47 | true exactly when some record has the definition's ID as parent; nothing changes |
| RhinoProvider.RhinoSerializationDataProvider.GetChildIDs | src/Rhino/RhinoSerializationDataProvider.cs:49-69 | the children's IDs in index order, the empty list for the empty definition; nothing changes |
| RhinoProvider.RhinoSerializationDataProvider.ResolvePath | src/Rhino/RhinoSerializationDataProvider.cs:71-88 | ID text as is; otherwise the record at the normalised path, or the null ID; nothing changes |
| RhinoProvider.RhinoSerializationDataProvider.GetParentID | src/Rhino/RhinoSerializationDataProvider.cs:103-119 | the parent of the record, or none; nothing changes |
| RhinoProvider.RhinoSerializationDataProvider.GetItemFields | src/Rhino/RhinoSerializationDataProvider.cs:121-149 | the record's shared fields then its version's fields, and the empty list when the record is absent; nothing changes |
| RhinoProvider.RhinoSerializationDataProvider.GetItemVersions | src/Rhino/RhinoSerializationDataProvider.cs:151-167 | one key per version; the empty list for the empty definition; a null reference when the record is absent |
| RhinoProvider.RhinoSerializationDataProvider.GetItemDefinition | src/Rhino/RhinoSerializationDataProvider.cs:169-182 | the definition of the record found, or none; nothing changes |
| RhinoProvider.RhinoSerializationDataProvider.CreateItem | src/Rhino/RhinoSerializationDataProvider.cs:184-217 | the parent must be held; the new record under it is saved, and only it |
| RhinoProvider.RhinoSerializationDataProvider.AddVersion | src/Rhino/RhinoSerializationDataProvider.cs:219-257 | the record must be held; with the corrected numbering (see Findings), the renumbered clone of the base version, or version 1, is appended and the record saved; the number is returned |
| RhinoProvider.RhinoSerializationDataProvider.CopyItem | src/Rhino/RhinoSerializationDataProvider.cs:267-281 | the source and destination must be held; the copy is saved under the destination |
| RhinoProvider.RhinoSerializationDataProvider.MoveItem | src/Rhino/RhinoSerializationDataProvider.cs:283-295 | the item must be held; the store performs the move, which asks the parent links below the item to end only when the destination is held |
| RhinoProvider.RhinoSerializationDataProvider.DeleteItem | src/Rhino/RhinoSerializationDataProvider.cs:297-308 | always true; a held record is deleted from disk and index; otherwise nothing changes |
| RhinoProvider.RhinoSerializationDataProvider.RemoveVersion | src/Rhino/RhinoSerializationDataProvider.cs:310-328 | exactly the version is removed and the record saved; the record and the version must exist |
| RhinoProvider.RhinoSerializationDataProvider.RemoveVersions | src/Rhino/RhinoSerializationDataProvider.cs:330-348 | with the loop corrected (see Findings), every version of the language is removed and the record saved |
| RhinoProvider.RhinoSerializationDataProvider.SaveItem | src/Rhino/RhinoSerializationDataProvider.cs:350-364 | the record must be held; the built record is saved |
| SerializationProvider.MoveStaysInStore | src/Rhino/SerializationDataProvider.cs:307-311 | a move throws exactly when one of the item and the destination is held, declines when neither is, and goes ahead when both are |
| SerializationProvider.ProvidersAgreeOnHeldItems | src/Rhino/SerializationDataProvider.cs:56-269 | for a held record the chained provider's child IDs, fields, AddVersion and SaveItem are the sole provider's; for an absent one it returns -1 or false where the sole provider fails the assertion |
| SerializationProvider.CreateNeverOverwrites | src/Rhino/SerializationDataProvider.cs:195-200 | creating an ID the store already holds returns false and saves nothing |
| SerializationProvider.SerializationDataProvider.HasChildren | src/Rhino/SerializationDataProvider.cs:49-54 | true exactly when some record has the definition's ID as parent |
| SerializationProvider.SerializationDataProvider.GetChildIDs | src/Rhino/SerializationDataProvider.cs:56-73 | null for the empty definition; otherwise the children's IDs in index order |
| SerializationProvider.SerializationDataProvider.ResolvePath | src/Rhino/SerializationDataProvider.cs:75-91 | ID text as is; otherwise the record at the normalised path, or null |
| SerializationProvider.SerializationDataProvider.GetParentID | src/Rhino/SerializationDataProvider.cs:106-122 | the parent of the record, or null |
| SerializationProvider.SerializationDataProvider.GetItemFields | src/Rhino/SerializationDataProvider.cs:124-152 | the field list of a held record, null otherwise |
| SerializationProvider.SerializationDataProvider.GetItemVersions | src/Rhino/SerializationDataProvider.cs:154-170 | one key per version; null for the empty definition |
| SerializationProvider.SerializationDataProvider.GetItemDefinition | src/Rhino/SerializationDataProvider.cs:172-185 | the definition of the record found, or null |
| SerializationProvider.SerializationDataProvider.CreateItem | src/Rhino/SerializationDataProvider.cs:187-229 | false without saving when the ID is held; otherwise the new record at the host parent's path + "/" + name is saved |
| SerializationProvider.SerializationDataProvider.AddVersion | src/Rhino/SerializationDataProvider.cs:231-269 | -1 without changes when the record is absent; otherwise the sole provider's numbering, corrected (see Findings), and save |
| SerializationProvider.SerializationDataProvider.CopyItem | src/Rhino/SerializationDataProvider.cs:278-297 | declines unless the source and destination are held; otherwise the copy is saved |
| SerializationProvider.SerializationDataProvider.MoveItem | src/Rhino/SerializationDataProvider.cs:299-314 | the cross-provider checks, then the store's move; the parent links below the item need to end only when both ends are held |
| SerializationProvider.SerializationDataProvider.DeleteItem | src/Rhino/SerializationDataProvider.cs:316-327 | true without changes when the record is absent; otherwise it is deleted |
| SerializationProvider.SerializationDataProvider.RemoveVersion | src/Rhino/SerializationDataProvider.cs:329-347 | exactly the version is removed and the record saved |
| SerializationProvider.SerializationDataProvider.RemoveVersions | src/Rhino/SerializationDataProvider.cs:349-367 | with the loop corrected (see Findings), every version of the language is removed and the record saved |
| SerializationProvider.SerializationDataProvider.SaveItem | src/Rhino/SerializationDataProvider.cs:369-383 | false without saving when the record is absent; otherwise the built record is saved |
| FilteredProvider.GateNeedsRecord | src/Rhino/FilteredSerializationDataProvider.cs:34-43 | the gate passes only for a record the store holds |
| FilteredProvider.IncludedIdsOk | src/Rhino/FilteredSerializationDataProvider.cs:77-86 | the own children's filter succeeds exactly when no gate throws |
| FilteredProvider.IncludedIdsKept | src/Rhino/FilteredSerializationDataProvider.cs:77-86 | a successful filter keeps exactly the children IDs whose gate includes them |
| FilteredProvider.IncludedIdsDistinct | src/Rhino/FilteredSerializationDataProvider.cs:77-86 | distinct children IDs stay distinct after filtering |
| FilteredProvider.IncludedIdsMembers | src/Rhino/FilteredSerializationDataProvider.cs:77-86 | the own children's filter throws only when a gate throws; it keeps exactly the included IDs, without repeats |
| FilteredProvider.MergeUniqueShape | src/Rhino/FilteredSerializationDataProvider.cs:88-97 | the merge keeps the list it appends to as its prefix, holds exactly the IDs of both, and adds no repeat |
| FilteredProvider.MergeOthersShape | src/Rhino/FilteredSerializationDataProvider.cs:88-99 | merging the later providers' lists skips null lists, keeps the own IDs first, and adds each other ID once |
| FilteredProvider.FilteredChildIdsShape | src/Rhino/FilteredSerializationDataProvider.cs:67-102 | a closed gate gives null; otherwise the result is the included own children, in order, then the other providers' IDs not already present, with no repeats |
| FilteredProvider.FilterKeepsUniqueIds | src/Rhino/FilteredSerializationDataProvider.cs:77-86 | filtering a list of unique records keeps them unique |
| FilteredProvider.FilteredResolveNeedsLiteralPath | src/Rhino/FilteredSerializationDataProvider.cs:104-116 | with no record at the literal path nothing resolves; a resolved path has an included record at the literal path |
| FilteredProvider.CreatedItemIsServed | src/Rhino/FilteredSerializationDataProvider.cs:158-170 | a create that succeeds saves a record the gate then passes |
| FilteredProvider.GatedWritesNeedInclusion | src/Rhino/FilteredSerializationDataProvider.cs:210-256 | with the gate closed a gated write changes nothing; with it open the write does what the base does and returns true |
| FilteredProvider.FilteredSerializationDataProvider.constructor | src/Rhino/FilteredSerializationDataProvider.cs:20-32 | the provider wraps the given provider and filter |
| FilteredProvider.FilteredSerializationDataProvider.ShouldExecuteProvider | src/Rhino/FilteredSerializationDataProvider.cs:34-43 | false when the store lacks the item; otherwise the filter's verdict on the record |
| FilteredProvider.FilteredSerializationDataProvider.ShouldExecuteProviderForChild | src/Rhino/FilteredSerializationDataProvider.cs:45-55 | false without a parent path; otherwise the filter's verdict on the child's path, ID, template and database |
| FilteredProvider.FilteredSerializationDataProvider.FilterOwnChildren | src/Rhino/FilteredSerializationDataProvider.cs:77-86 | the loop keeps the own children the gate passes, in order, or throws as the gate does |
| FilteredProvider.FilteredSerializationDataProvider.MergeInto | src/Rhino/FilteredSerializationDataProvider.cs:92-97 | the loop appends each ID not already present |
| FilteredProvider.FilteredSerializationDataProvider.MergeProviders | src/Rhino/FilteredSerializationDataProvider.cs:88-99 | the loop merges every later provider's non-null list |
| FilteredProvider.FilteredSerializationDataProvider.GetChildIDs | src/Rhino/FilteredSerializationDataProvider.cs:67-102 | the gated, filtered and merged child list; nothing changes |
| FilteredProvider.FilteredSerializationDataProvider.HasChildren | src/Rhino/FilteredSerializationDataProvider.cs:57-65 | false with the gate closed; otherwise whether the merged child list is non-empty |
| FilteredProvider.FilteredSerializationDataProvider.ResolvePath | src/Rhino/FilteredSerializationDataProvider.cs:104-116 | null unless the record at the literal path is included; then the base provider's resolution |
| FilteredProvider.FilteredSerializationDataProvider.GetParentID | src/Rhino/FilteredSerializationDataProvider.cs:118-126 | null with the gate closed; otherwise the base answer |
| FilteredProvider.FilteredSerializationDataProvider.GetItemFields | src/Rhino/FilteredSerializationDataProvider.cs:128-136 | null with the gate closed; otherwise the base answer |
| FilteredProvider.FilteredSerializationDataProvider.GetItemVersions | src/Rhino/FilteredSerializationDataProvider.cs:138-146 | null with the gate closed; otherwise the base answer |
| FilteredProvider.FilteredSerializationDataProvider.GetItemDefinition | src/Rhino/FilteredSerializationDataProvider.cs:148-156 | null with the gate closed; otherwise the base answer |
| FilteredProvider.FilteredSerializationDataProvider.CreateItem | src/Rhino/FilteredSerializationDataProvider.cs:158-170 | false without changes when the new item would not be included; otherwise the base create |
| FilteredProvider.FilteredSerializationDataProvider.AddVersion | src/Rhino/FilteredSerializationDataProvider.cs:172-180 | -1 without changes with the gate closed; otherwise the base answer, with the corrected numbering (see Findings) |
| FilteredProvider.FilteredSerializationDataProvider.CopyItem | src/Rhino/FilteredSerializationDataProvider.cs:187-202 | false without changes when the copy would not be included; otherwise the base copy |
| FilteredProvider.FilteredSerializationDataProvider.MoveItem | src/Rhino/FilteredSerializationDataProvider.cs:204-208 | never gated: exactly the base move, under the base's requirement that applies only when both ends are held |
| FilteredProvider.FilteredSerializationDataProvider.DeleteItem | src/Rhino/FilteredSerializationDataProvider.cs:210-220 | false without changes with the gate closed; otherwise the base delete, then true |
| FilteredProvider.FilteredSerializationDataProvider.RemoveVersion | src/Rhino/FilteredSerializationDataProvider.cs:222-232 | false without changes with the gate closed; otherwise the base removal of that one version, then true |
| FilteredProvider.FilteredSerializationDataProvider.RemoveVersions | src/Rhino/FilteredSerializationDataProvider.cs:234-244 | false without changes with the gate closed; otherwise the base removal with the loop corrected (see Findings), then true |
| FilteredProvider.FilteredSerializationDataProvider.SaveItem | src/Rhino/FilteredSerializationDataProvider.cs:246-256 | false without changes with the gate closed; otherwise the base save, then true |
| Watcher.WatcherDisabler.constructor | src/Rhino/Data/WatcherDisabler.cs:10-14 | opening the scope switches the wrapped watcher's events off |
| Watcher.WatcherDisabler.Dispose | src/Rhino/Data/WatcherDisabler.cs:16-19 | disposing switches them on |
| Watcher.DisabledScope | src/Rhino/Data/WatcherDisabler.cs:10-19 | a watcher that was off before a scope is on after it, and no other watcher changes |
| Watcher.NestedScopes | src/Rhino/Data/WatcherDisabler.cs:10-19 | disposing an inner scope switches events on while the outer scope is still open |
| FsckResults.FailedTestsShape | src/Rhino.Fsck/Tests/TestResultCollection.cs:14-25 | FailedTests holds exactly the results that did not pass, is non-empty exactly when the collection contains failures, and taking it twice is taking it once |
| FsckResults.FailedTestsAppend | src/Rhino.Fsck/Tests/TestResultCollection.cs:19-25 | the failures of two parts are those of the first, then those of the second |
| FsckResults.ItemContainsFailures | src/Rhino.Fsck/Tests/ItemTestResult.cs:5-17 | an item has failures exactly when its failed tests are non-empty |
| FsckTests.StripShortIdSuffixShape | src/Rhino.Fsck/Tests/PathTest.cs:44-46 | a last '_' segment that is a short ID is dropped with its '_'; any other path is kept |
| FsckTests.LeadingSlashShape | src/Rhino.Fsck/Tests/PathTest.cs:57 | the result has exactly one leading '/', and applying it twice changes nothing |
| FsckTests.MappedPathShape | src/Rhino.Fsck/Tests/PathTest.cs:44-63 | with a database name the mapped path starts with "/" + name + "/"; without one it is only suffix-stripped and slash-normalised |
| FsckTests.PathTestVerdict | src/Rhino.Fsck/Tests/PathTest.cs:66-75 | the test passes exactly when the mapped and reference paths agree ignoring case, and a failure names both |
| FsckTests.MessageNamesBoth | src/Rhino.Fsck/Tests/PathTest.cs:75 | a message built around two strings contains both |
| FsckTests.ExecutePathTest | src/Rhino.Fsck/Tests/PathTest.cs:37-76 | the step-by-step rewriting of the path computes the path test's result |
| FsckTests.FirstAtPath | src/Rhino.Fsck/Tests/ParentIdTest.cs:27 | the first loaded file at the path, or none |
| FsckTests.ParentIdTestVerdict | src/Rhino.Fsck/Tests/ParentIdTest.cs:23-36 | no parent file passes; a parent file that is not loaded throws; otherwise it passes exactly when the first file there has the item's parent ID, and a failure's message contains both the item's parent ID and the parent file's ID |
| FsckTests.Paths | src/Rhino.Fsck/Tests/DuplicateIdTest.cs:23 | the full paths of the files, in order |
| FsckTests.DuplicateIdTestVerdict | src/Rhino.Fsck/Tests/DuplicateIdTest.cs:15-23 | the test passes exactly when no other file of the same database has the ID at another path; the item itself and other databases never count; the relation is symmetric |
| FsckTests.DuplicatesFailBoth | src/Rhino.Fsck/Tests/DuplicateIdTest.cs:15-23 | two duplicates both fail, each listing the other's path |
| FsckTests.FirstFailureIsFirst | src/Rhino.Fsck/Tests/InvalidMetadataTest.cs:15-54 | the first failing check's message is the head of all failing checks' messages in check order, and there is none exactly when every check passes |
| FsckTests.MetadataFirstProblemDecides | src/Rhino.Fsck/Tests/InvalidMetadataTest.cs:15-54 | the test passes exactly when every check passes, and a failure carries the first failing check's message |
| FsckTests.SameChecksSameVerdict | src/Rhino.Fsck/Tests/InvalidMetadataTest.cs:15-54 | two records on which the checks agree get the same verdict |
| FsckTests.NullParentOnlyOnRoot | src/Rhino.Fsck/Tests/InvalidMetadataTest.cs:24 | a record with the null parent ID passes only when it is the root item |
| FsckTests.AnyParsedMasterId | src/Rhino.Fsck/Tests/InvalidMetadataTest.cs:33-34 | any parseable master ID, the null ID included, leaves the verdict as it is |
| FsckTests.OnlyFirstVersionCounts | src/Rhino.Fsck/Tests/InvalidMetadataTest.cs:48-52 | versions after the first do not affect the verdict |
| FsckTests.NoVersionsTestResult | src/Rhino.Fsck/Tests/NoVersionsTest.cs:5-14 | the result is named by Name(NoVersionsTest), passes exactly when the record has a version, and otherwise carries the fixed warning |
| FsckTests.ExecuteNamesItsTest | src/Rhino.Fsck/Tests/TestResult.cs:5-19 | every result carries its test's name and has a message exactly when it failed; only the parent-ID test throws |
| FsckTests.ParentIdTestNamed | src/Rhino.Fsck/Tests/ParentIdTest.cs:16-36 | the parent-ID test's result carries its name and has a message exactly when it failed |
| FsckTests.ExecuteIgnoresOtherFiles | src/Rhino.Fsck/Tests/PathTest.cs:37-77 | the path, metadata and no-versions tests give the same answer whatever the other loaded files are |
| FsckTests.ExecuteTest | src/Rhino.Fsck/Tests/PathTest.cs:37-76 | dispatch to the test's Execute |
| FsckRunner.CollectShape | src/Rhino.Fsck/Tests/TestRunner.cs:22 | collecting succeeds exactly when every outcome is a value, and then keeps them all, in order |
| FsckRunner.TestsOnShape | src/Rhino.Fsck/Tests/TestRunner.cs:22 | one result per test, in test order, each the test's own verdict under its name |
| FsckRunner.DeliverShape | src/Rhino.Fsck/Tests/TestRunner.cs:18-26 | without a throw, one result per item in item order, holding the item and its results; with one, the results given are those of a prefix of the items |
| FsckRunner.RunItemsShape | src/Rhino.Fsck/Tests/TestRunner.cs:9-26 | a run completes exactly when no item's tests throw, and then has one result per item, in item order, each tested against all the items |
| FsckRunner.ReportedItems | src/Rhino.Fsck/Tests/TestRunner.cs:18-26 | in a complete run an item has failures exactly when one of its tests did not pass, and its failed tests are exactly those |
| FsckRunner.RunTests | src/Rhino.Fsck/Tests/TestRunner.cs:22 | the loop computes one item's results in test order, stopping at a throw |
| FsckRunner.ResultLog.Add | src/Rhino.Fsck/Tests/TestRunner.cs:13-15 | the callback appends the result it is given |
| FsckRunner.ExecuteTestsWith | src/Rhino.Fsck/Tests/TestRunner.cs:18-26 | the callback receives one result per item, in item order, until a test throws, and the throw is reported |
| FsckRunner.ExecuteTests | src/Rhino.Fsck/Tests/TestRunner.cs:9-16 | the array overload returns the results the callback collected, or the throw |

## Left out

- Real file I/O is not modelled: opening, reading and writing files, creating directories, and the relative-root resolution of the store's constructor. The disk is a map, and the folder of a `(database, item path)` pair is a function the store is given.
- Loading (`LoadItems`, `LoadItem`), `DiskItem` loading and `Rhino.Fsck/Program.cs` are left out. They are console and file I/O over the foreign record codec, run in parallel. The store is built from an already loaded list.
- The locks, `volatile` fields and double-checked locking of the index are not modelled, and neither is concurrency. The index is modelled single-threaded.
- Aliasing of shared `SyncItem` objects is not modelled. The source changes a record in place and saves the same object. The model builds the new record value and saves that.
- `SyncItem.Clone` (SyncItemExtensions.cs:40-54) is a round trip through the foreign record codec. The model takes the round trip as faithful, so the copy `CopyItem` changes is the source record's value.
- Identifier parsing and formatting are abstract:
  - `ID.TryParse` and `IsID` accept exactly the canonical upper-case braced GUID text (`Ids.IsId`);
  - `ShortID.IsShortID` is modelled as 32 hex digits;
  - `ID.ToString()` is the identity on that text.
- Case-insensitive comparison is an ASCII fold. Culture rules are not modelled.
- Strings are never absent: the model reads an absent string of a loaded record as the empty string. The source dereferences these strings without a null check, so for a record that lacks one it throws NullReferenceException where the model compares "" and carries on. Loading asserts only the TemplateID, so such records do load. The dropped exceptions are these:
  - `GetItem` by path, on a record without an item path (src/Rhino/Data/SerializedIndex.cs:72);
  - `ClearIndexes`, on a record without an ID (src/Rhino/Data/SerializedIndex.cs:201);
  - `GetVersion`, on a version without a language (src/Rhino/SyncItemExtensions.cs:37);
  - the `RemoveVersions` loops, on a version without a language (src/Rhino/RhinoSerializationDataProvider.cs:341, src/Rhino/SerializationDataProvider.cs:360);
  - the descendant rebase of `MoveItem`, on a descendant without an item path (src/Rhino/Data/SerializedDatabase.cs:144). A moved item without a path, whose descendants are rebased with an empty old root, is modelled: the source's `String.Replace` throws ArgumentException on "" (ArgumentNullException on null), and the model throws ArgumentEmpty after the moved item is saved;
  - the preset filter's path check, on a record without an item path (src/Rhino/Filtering/SerializationPresetFilter.cs:86);
  - the duplicate-ID test, on a file without a database name or ID (src/Rhino.Fsck/Tests/DuplicateIdTest.cs:16-17);
  - the parent-ID test, on a parent file without an ID (src/Rhino.Fsck/Tests/ParentIdTest.cs:29).
  `int.Parse` of an absent version text throws ArgumentNullException where the model's MaxVersion gives Format (src/Rhino/RhinoSerializationDataProvider.cs:242, src/Rhino/SerializationDataProvider.cs:254). The fsck metadata test's blank checks treat an absent string as blank, as the model does.
- `Database.SerializedDatabase.MoveItem` and the providers' `MoveItem`: when the new parent (for the providers, the destination as well as the item) is held, the model requires that the parent links below the moved item end. The source's recursion would not return then (`Descendants.SelfParentDiverges`). With the new parent or destination missing, the source fails the assertion or refuses the move before it recurses, and the model has no requirement there (`Database.MoveUnderMissingParentFails`).
- Sitecore host plumbing is not modelled; its results are parameters of the provider methods. That covers:
  - `TemplateManager.GetTemplate`, `Database.GetItem` and `ItemSynchronization.BuildSyncItem`;
  - the later providers' answers to `GetChildIDs`;
  - `CallContext.Abort`;
  - the `Language` and `Version` parses.
- `ConfigurationManager`, `Stopwatch` and `Log` in the provider constructors are left out.
- `GetTemplateItemIds` and `GetLanguages` are not modelled in any provider. They read the host's template and language lists. The filtered provider's `GetLanguages` returns null without a gate.
- `ItemDefinition.Empty` is a distinct constructor of the definition datatype, not a sentinel object.
- `FieldList` is modelled as a list of field values. Duplicate field IDs are kept in order rather than overwritten.
- The preset filter's construction from configuration (`Factory.GetConfigNode`, `PresetFactory.Create`) and `GetRootItems` are left out. The preset is a given list of include entries.
- `IFilter` and `ITest` are interfaces with one implementation set each. Their implementations are dispatched by a datatype and a `match`.
- The fsck tests' filesystem helpers are fields of `FsckTests.Host`, supplied by the caller: `PathUtils.MakeItemPath`, `ItemReference`, `Path.GetDirectoryName` and `File.Exists`.
- `PathUtils.StripPath` (`Disk.StripPath`) is taken to strip the ".item" extension (`Disk.Extension`), and a file lies below a folder when its path continues the folder's path with `\`. `Database.ChildFolderOfItem`, `Database.MoveInPlaceErasesFile` and the delete lemmas rest on that reading; Sitecore's PathUtils is not part of this model.
- The file watcher's reload and evict logic is not part of this model. `SerializationDataProvider` calls a two-argument store constructor whose source is not among the modelled files.
- `Database.SerializedDatabase.MoveItem`, `Database.SerializedDatabase.SaveRebasedDescendants` and `Database.RebaseAll` rebase descendant paths by replacing the old root at the start of the path. The source's `String.Replace` also rewrites later occurrences; see Findings.
- `FilteredProvider.FilteredSerializationDataProvider.CreateItem` checks the filter on the new item before the base provider checks for an empty name. This follows the source's order.
- RhinoProvider.RhinoSerializationDataProvider.AddVersion, RhinoProvider.RhinoSerializationDataProvider.RemoveVersions, SerializationProvider.SerializationDataProvider.AddVersion, SerializationProvider.SerializationDataProvider.RemoveVersions, FilteredProvider.FilteredSerializationDataProvider.AddVersion and FilteredProvider.FilteredSerializationDataProvider.RemoveVersions run the corrected definitions of Findings (the numbering over the base's language ignoring case, the loop over every index). They do not promise what the source as written does: there Max throws, or gives a number that duplicates an existing version, and RemoveVersions throws ArgumentOutOfRange. The as-written behaviour is stated by ProviderRules.NextVersionNumberAsWritten, ProviderRules.RemoveVersionsAsWritten and the lemmas of Findings.
- ProviderOutcomes.AddedVersionReadsLikeBase, ProviderRules.AddedVersionIsFound and ProviderOutcomes.RemoveVersionsOutcomeHidesLanguage are about the corrected numbering and loop, not about the code as written.
- MaxVersion (ProviderRules.MaxVersion) and Text.ParseInt model `int.Parse` without its Int32 range: a version text outside -2147483648..2147483647 parses here, where the source throws OverflowException. The leading and trailing white space `int.Parse` accepts (U+0009 to U+000D and U+0020) is not accepted here, and the `+ 1` after `Max` does not wrap at Int32.MaxValue.
- ProviderRules.ParentListsChild and ProviderOutcomes.ParentLookupListsChild rely on the identifier abstraction above: a record's ParentID text is its parent's ID exactly when it is canonical text. With Sitecore's parser a lower-case or unbraced ParentID still names the parent, but GetChildren matches the ParentID text against the formatted ID (src/Rhino/Data/SerializedIndex.cs:108-109), so the child would not be listed; the model has no such text.

## Findings

| source | as written | input that shows it | evidently intended | confidence | as-written member | corrected member |
|---|---|---|---|---|---|---|
| src/Rhino/RhinoSerializationDataProvider.cs:339-343 (also src/Rhino/SerializationDataProvider.cs:358-362) | the loop starts at `Versions.Count` and stops before 0 | any record with at least one version: the first read, `Versions[Count]`, is out of range; started one lower, a lone version at index 0 would still never be examined | remove every version of the language, ignoring case, and keep the others | not executed | ProviderRules.RemoveVersionsAsWritten, ProviderRules.RemoveVersionsNeverReadsFirst | ProviderRules.RemoveLanguageVersions, ProviderRules.WithoutLanguageHidesLanguage |
| src/Rhino/RhinoSerializationDataProvider.cs:240-242 (also src/Rhino/SerializationDataProvider.cs:252-254) | the same-language `Where` compares languages case-sensitively, while `GetVersion` found the base version ignoring case | a version stored as "EN", version "1", with base version en#1: the base is found, the `Where` keeps nothing, and `Max` throws InvalidOperationException; and versions "EN" 2 and "en" 1 with base en#1: the `Where` sees only version 1, the new number is 2, and `GetVersion` already answers en#2 with the "EN" version, which it would go on finding first | take the maximum over the versions of the base's language as `GetVersion` compares it | not executed | ProviderRules.NextVersionNumberAsWrittenFindsNothing, ProviderRules.NextVersionNumberAsWrittenDuplicates | ProviderRules.NextVersionNumberIsFresh |
| src/Rhino/Data/SerializedDatabase.cs:144 | a descendant's path is rewritten with `String.Replace(oldRootPath, newRootPath)`, which rewrites every occurrence | moving "/a" under "/b": its child "/a/a" becomes "/b/a/b/a" | replace only the old root at the start of the path, giving "/b/a/a" | not executed | Database.ReplaceAllRewritesInnerOccurrences | Database.RebasePathRoundTrip |
