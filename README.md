# A verified model of the storage catalog and query engine

The storage service keeps netCDF files under a directory. It names each file
by the MD5 of its virtual path, watches the directory for changes, and keeps a
metadata catalog in step with it. The catalog is a table of
(path, type, key, value) rows that a flattener extracts from each dataset.
Clients query a variable's values within named coordinate bounds.

This project models the core of that service in Dafny and proves properties
of the model. The netCDF library is an abstract dataset value: dimensions,
variables with a kind, a dimension list, values and attributes, and global
attributes. An accessor whose error the code checks is a field that may hold
a failure.

| module (file) | models |
|---|---|
| `Base` (base.dfy) | shared outcomes and Go's string helpers: `strings.Join`, `strings.Split`, decimal printing, `strconv.ParseInt` |
| `Dataset` (dataset.dfy) | the abstract dataset; `df.Var`; the library's hyperslab read |
| `Codec` (codec.dfy) | Go's float-to-integer conversions (truncation toward zero; an out-of-range value is wrapped to the width, a choice of the model); Go's fixed-width integer wrap-around; `binary.Write` little-endian encoding and its decoder |
| `Hyperslab` (hyperslab.dfy) | the query engine: `offsetsWithLengths`, `indexOf`, `getSlice`, `Lookup` |
| `Metadata` (metadata.dfy) | the metadata flattener and the insert loop |
| `Prototype` (prototype.dfy) | the older engine: `GetAttValue`, `ValueHolder`, `NetcdfFileHandler`, `FindValue`, `GetData`, `Extract` |
| `Hooks` (hooks.dfy) | the event-hook façade: `On`, `trigger`, `apply`, `Save`/`Delete`/`Read` |
| `Files` (files.dfy) | `FileService.Resolve`: Base16 (section 8 of RFC 4648) of an MD5 digest (RFC 1321), then `filepath.Join` |
| `Watcher` (watcher.dfy) | `Watch`: synthetic rewatch renames, then live events for files |
| `Catalog` (catalog.dfy) | the catalog listener: dispatch of create, remove and rename events; `insertMetadata`; `cleanMetadata` |
| `Migration` (migration.dfy) | the SQL-to-key-value migration loop as written, and the grouping it evidently intends |

The code is modelled in the form it takes in the source:

- **Loops.** Code that loops and updates variables is a `method` with loop
  invariants. Each such method is proved equal to a specification function.
  `OffsetsWithLengths` and `Extract` fill `array`s in place, as the source
  fills its `offsets` and `lens` slices.
- **Objects.** Objects whose fields change are classes:
  - `ValueHolder`;
  - the hook registry `Hooks.Storage`;
  - the prepared insert statement `Metadata.Statement`;
  - the catalog table `Catalog.Catalog`.
- **Pure code.** Pure dispatches and compositions are functions.
- **Properties.** The properties the code promises are lemmas about those
  functions.

## Model

| member | source | states |
|---|---|---|
| Dataset.FindVar | netcdf/netcdf.go:96-99 | the variable found carries the requested name; none is found only when no variable's name reads as it |
| Dataset.ReadArray | netcdf/netcdf.go:133-210 | a successful hyperslab read yields exactly product(lens) elements |
| Dataset.SlabLength | netcdf/netcdf.go:128-131 | the row-major box read has product(lens) elements, which is the `total` the buffer is sized with |
| Codec.Wrap | netcdf/netcdf.go:244 | a Go conversion to a w-byte signed integer always lands in [-2^(8w-1), 2^(8w-1)) |
| Codec.IntNearIsEquality | netcdf/netcdf.go:244-299 | for in-range integers, the test abs(float64(v2 - dim)) < 1e-15 on the wrapped difference holds exactly when v2 == dim |
| Codec.LittleEndianRoundTrip | netcdf/netcdf.go:140 | reading back the w little-endian bytes of an unsigned value gives the value |
| Codec.BitsRoundTrip | netcdf/netcdf.go:140 | the two's-complement pattern of an in-range stored value sign-extends back to the value |
| Codec.EncodeLength | netcdf/netcdf.go:140-144 | binary.Write of n elements writes width × n bytes |
| Codec.DecodeEncode | netcdf/netcdf.go:133-210 | decoding the little-endian buffer at the kind's stride gives back exactly the elements written, for every supported kind |
| Hyperslab.FirstMatch | netcdf/netcdf.go:246-251 | the scan returns the first index at or after i whose value matches; "Value not found" exactly when none does |
| Hyperslab.IndexOfValue | netcdf/netcdf.go:217-318 | indexOf succeeds exactly when the kind is SHORT, INT, INT64, FLOAT or DOUBLE and some value matches; it returns the first matching index; otherwise "Value not found" |
| Hyperslab.IndexOf | netcdf/netcdf.go:217-318 | the scanning loop with early return computes IndexOfValue |
| Hyperslab.IndexOfIntegerExact | netcdf/netcdf.go:235-299 | for SHORT, INT and INT64 the match is the first value equal to the bound truncated and wrapped to the kind's width, and a miss means no value equals it |
| Hyperslab.DimIndex | netcdf/netcdf.go:46-53 | the first dimension bearing the coordinate's name; an unreadable name before it is a library error; "Coordinate not found" exactly when every name reads and none matches |
| Hyperslab.ResolveBound | netcdf/netcdf.go:54-74 | the match branch computes CoordBound: indexOf(Min) and its error first, then indexOf(Max) |
| Hyperslab.ApplyCoords | netcdf/netcdf.go:44-80 | a successful pass keeps one offset and one length per dimension |
| Hyperslab.OffsetsWithLengths | netcdf/netcdf.go:16-82 | the nested loops over the arrays compute Bounds: every error case (dims, lengths, names, unknown coordinate, indexOf) and the final offsets and lengths |
| Hyperslab.ApplyCoordsUntouched | netcdf/netcdf.go:45-77 | a dimension that no coordinate picks keeps its starting offset and length |
| Hyperslab.ApplyCoordsLastWins | netcdf/netcdf.go:45-75 | when several coordinates pick one dimension, the last of them decides its bound |
| Hyperslab.ApplyCoordsAllNamed | netcdf/netcdf.go:44-80 | after a successful pass, every coordinate names some dimension of the variable |
| Hyperslab.ApplyCoordsNotFound | netcdf/netcdf.go:79 | the first coordinate naming no dimension fails with "Coordinate not found" under its name |
| Hyperslab.UnknownCoordinateFails | netcdf/netcdf.go:44-80 | a coordinate naming no dimension makes offsetsWithLengths fail, with no offsets and no lengths |
| Hyperslab.BoundsUnconstrained | netcdf/netcdf.go:31-42 | a dimension named by no coordinate gets offset 0 and its declared length |
| Hyperslab.BoundsLastCoordinate | netcdf/netcdf.go:53-74 | the bound of a picked dimension is either indexOf(Min) with length indexOf(Max) - indexOf(Min) + 1 (the same-named variable exists) or trunc(Min) with length trunc(Max - Min) + 1 (it does not) |
| Hyperslab.GetSlice | netcdf/netcdf.go:115-213 | the product loop and the element-by-element buffer compute Slice |
| Hyperslab.SliceShape | netcdf/netcdf.go:128-210 | a slice is tagged with the kind's name, holds width × product(lens) bytes and decodes to the elements read |
| Hyperslab.ReadArrayFromValues | netcdf/netcdf.go:136 | every element of a hyperslab is one of the variable's values |
| Hyperslab.SlabFromValues | netcdf/netcdf.go:136 | every element of a row-major box read is one of the values read from |
| Hyperslab.RowsFromValues | netcdf/netcdf.go:136 | every element of the rows read is one of the values read from |
| Hyperslab.SliceTypeMismatch | netcdf/netcdf.go:212 | exactly the kinds outside BYTE, CHAR, SHORT, INT, INT64, FLOAT and DOUBLE fail with "Type mismatch" naming the kind |
| Hyperslab.Lookup | netcdf/netcdf.go:84-113 | Lookup computes Query: a missing variable, then offsetsWithLengths' error, then getSlice |
| Hyperslab.QueryUnknownCoordinate | netcdf/netcdf.go:101-104 | a query with a coordinate that names no dimension never succeeds |
| Hyperslab.NoCoordinatesSelectsAll | netcdf/netcdf.go:31-42 | with no coordinates, a (5, 4, 3) variable is read whole: offsets 0, 0, 0, lengths 5, 4, 3, 60 elements |
| Hyperslab.DegenerateBoundSelectsOneIndex | netcdf/netcdf.go:60-73 | Min == Max on a value stored at index 3 selects offset 3 and length 1 |
| Hyperslab.DescendingBoundsGiveNegativeLength | netcdf/netcdf.go:72-73 | on a descending coordinate variable, a query with Min below Max gets length -1: nothing checks that index(Max) >= index(Min) |
| Hyperslab.LiteralBoundsTruncateTheDifference | netcdf/netcdf.go:56-58 | without a coordinate variable, [0.5, 1.4] gives length 1, because Max - Min is truncated as a whole and not bound by bound |
| Hyperslab.LatitudeBounds | netcdf/netcdf.go:44-81 | on a one-dimensional variable, offsetsWithLengths returns the single coordinate's bound |
| Hyperslab.IndexAt | netcdf/netcdf.go:252-267 | an INT value at index i, with no earlier equal value, is found at i |
| Metadata.AttrValue | netcdf/metadata.go:37-74 | attrValue succeeds exactly on CHAR and on non-empty SHORT, INT, FLOAT and DOUBLE; it yields element 0 (the whole text for CHAR) under the attribute's kind; any other kind is "Type mismatch", and v[0] of an empty numeric attribute is an index error |
| Metadata.GlobalEntries | netcdf/metadata.go:76-109 | one A entry per global attribute, in index order, with the file id, the attribute's name and its value; otherwise the error of the first attribute that does not read |
| Metadata.AttrFailsFirstAtUnique | netcdf/metadata.go:85-96 | the scan stops at one place only, with one error |
| Metadata.ExtractGlobalAttributes | netcdf/metadata.go:76-109 | the append loop with early return computes GlobalEntries |
| Metadata.GlobalEntriesStep | netcdf/metadata.go:92-105 | a readable attribute extends the entries by its A entry |
| Metadata.GlobalEntriesStopsAt | netcdf/metadata.go:92-96 | the first unreadable attribute's error is the extraction's result |
| Metadata.AttrMap | netcdf/metadata.go:111-135 | the attribute map is built exactly when every attribute reads; otherwise it fails with the first failing attribute's error |
| Metadata.AttrMapKeys | netcdf/metadata.go:111-135 | the map has one key per attribute name and no other |
| Metadata.AttrMapValues | netcdf/metadata.go:120-132 | under each name is the value of the last attribute bearing it |
| Metadata.ExtractVariableAttributes | netcdf/metadata.go:111-135 | the loop filling the map in place computes AttrMap |
| Metadata.DimEntries | netcdf/metadata.go:146-167 | one D entry per dimension in declared order, keyed by its name, with the length in decimal as the value; a library error when any name or length does not read |
| Metadata.ExtractVariableDimensions | netcdf/metadata.go:137-170 | the loop computes the D entries, failing when the dimension list itself does not read |
| Metadata.DimValueParses | netcdf/metadata.go:163 | a D entry's value parses back with strconv.ParseInt to the dimension's length |
| Metadata.Keys | netcdf/metadata.go:172-180 | the keys of the entries, in order |
| Metadata.JoinKeys | netcdf/metadata.go:172-180 | joinKeys is strings.Join of the keys, in order |
| Metadata.JoinKeysSplits | netcdf/metadata.go:172-180 | no entries give ""; otherwise, when no key holds the separator, splitting the joined string gives the keys back |
| Metadata.VarBlockShape | netcdf/metadata.go:191-233 | a variable contributes V and VA under its name, then its D entries in declared order, all under the file's id |
| Metadata.VarBlockDims | netcdf/metadata.go:211-216 | the V value is the space-joined names of the variable's D entries, and it splits back into them when no name holds a space |
| Metadata.VarEntries | netcdf/metadata.go:182-236 | the extraction succeeds exactly when every variable's block does; otherwise it fails with the error of the first block that fails |
| Metadata.VarEntriesStep | netcdf/metadata.go:211-232 | a successful block extends the entries by exactly that block |
| Metadata.VarEntriesStopsAt | netcdf/metadata.go:191-222 | the first block that fails decides the extraction's error |
| Metadata.VarEntriesCount | netcdf/metadata.go:182-236 | the result has the sum over the variables of 2 + ndims entries |
| Metadata.VarEntriesTags | netcdf/metadata.go:211-232 | no variable entry carries tag A, and every one carries the file id |
| Metadata.BlockTagged | netcdf/metadata.go:211-232 | one variable's entries carry no A tag and all carry the file id |
| Metadata.TaggedConcat | netcdf/metadata.go:231-232 | appending one variable's block keeps every entry non-A and under the file id |
| Metadata.ExtractVariables | netcdf/metadata.go:182-236 | the loop with early returns computes VarEntries |
| Metadata.ExtractionLayout | netcdf/metadata.go:238-265 | a successful extraction lists the A entries first, one per global attribute in order and exactly in the first positions, then 2 + ndims entries per variable, all under the file id |
| Metadata.ConcatLayout | netcdf/metadata.go:246-262 | global entries followed by variable entries carry tag A exactly in the first positions |
| Metadata.Statement.Exec | netcdf/metadata.go:303-311 | an accepted entry is appended to the table; a refused one changes nothing and reports failure |
| Metadata.Accepted | netcdf/metadata.go:301-315 | how many leading entries are accepted: all before it are accepted, and the one at it is refused |
| Metadata.InsertMetadata | netcdf/metadata.go:301-315 | the entries are written in order up to the first refused one, which stops the loop with the execution error; Ok exactly when all are written |
| Metadata.Insert | netcdf/metadata.go:238-265 | an unopened file or a failed extraction writes nothing and reports its error; otherwise the global and variable entries are inserted in order up to the first refused one |
| Prototype.GetAttValue | netcdf.go:36-61 | succeeds exactly on CHAR and on non-empty INT and FLOAT; an empty INT or FLOAT panics, and any other kind is the "Type mismatch" error |
| Prototype.GetAttValueAgreesWithAttrValue | netcdf.go:36-61 | on INT, CHAR and FLOAT it reads what attrValue reads; it refuses the SHORT and DOUBLE attributes that attrValue accepts |
| Prototype.GetValue | netcdf.go:86-99 | GetValue fails (an index panic) exactly on an INT tag with no ints or a FLOAT tag with no floats, and yields a value only for the tags CHAR, INT, FLOAT and STRING |
| Prototype.ValueHolder.constructor | netcdf.go:28-34 | a new holder is Go's zero value |
| Prototype.ValueHolder.SetValue | netcdf.go:63-84 | the type tag becomes the attribute's kind, the field of CHAR, INT or FLOAT takes its values, and every other field is unchanged |
| Prototype.GetAfterSet | netcdf.go:63-99 | after SetValue, GetValue gives GetAttValue's answer for CHAR, INT and FLOAT, the free-form value for STRING and nil for any other kind |
| Prototype.PathBase | netcdf.go:120 | filepath.Base is never empty and holds no slash unless it is "/" |
| Prototype.TrimSlashes | netcdf.go:120 | the path with its trailing slashes removed is a prefix of it that does not end in a slash |
| Prototype.LastElement | netcdf.go:120 | what follows the last slash is a slash-free suffix, non-empty when the path does not end in a slash |
| Prototype.PathBaseOfJoin | netcdf.go:120 | the file id of dir/name is name, for a name without slashes |
| Prototype.LastElementOfSuffix | netcdf.go:120 | the last element of a slash-terminated prefix followed by a slash-free name is that name |
| Prototype.GlobalPart | netcdf.go:126-139 | one A entry per global attribute, in order, holding a fresh holder set from that attribute |
| Prototype.AnyMap | netcdf.go:154-165 | the variable's map fills exactly when GetAttValue succeeds on every attribute |
| Prototype.AnyMapStops | netcdf.go:154-165 | the map stops at the first attribute that fails, with its error |
| Prototype.Emitted | netcdf.go:172-193 | the dimensions that yield a D entry are exactly the readable ones, in declared order |
| Prototype.DimNames | netcdf.go:172-193 | the names of the emitted dimensions, in order |
| Prototype.DimPart | netcdf.go:172-193 | one D entry per emitted dimension, in order |
| Prototype.VarPart | netcdf.go:142-207 | the walk over variables succeeds exactly when every variable's block does |
| Prototype.VarPartStops | netcdf.go:142-207 | a variable whose attribute map or JSON fails aborts the whole walk |
| Prototype.VarPartStep | netcdf.go:142-207 | a variable's block extends the walk by exactly that block |
| Prototype.NetcdfFileHandler | netcdf.go:112-221 | an unopened file saves nothing; otherwise the entries are the global part then the variable blocks, under the file id filepath.Base(path) |
| Prototype.WalkVariables | netcdf.go:142-207 | the loop over variables computes VarPart |
| Prototype.GlobalAttributes | netcdf.go:126-139 | the loop over global attributes computes GlobalPart, one SetValue holder per attribute |
| Prototype.VariableEntries | netcdf.go:143-206 | the body of the variable loop computes ProtoBlock |
| Prototype.FillAny | netcdf.go:154-165 | the loop filling the `any` map computes AnyMap |
| Prototype.WalkDims | netcdf.go:172-193 | the dimension loop keeps the names and D entries of the readable dimensions and skips the rest |
| Prototype.ProtoBlockOrder | netcdf.go:172-205 | D entries come first, then V and VA under the variable's name, and the V value joins the names of exactly the emitted dimensions |
| Prototype.SkippedParts | netcdf.go:144-148 | a variable whose name does not read contributes nothing; one whose dimension list does not read gets no D entries and an empty V |
| Prototype.DimValueIsInt32 | netcdf.go:189-190 | a D entry saves int32(len): the length itself up to 2^31 - 1, and -2^31 at 2^31 |
| Prototype.LastCloser | netcdf.go:363-374 | the fallback is MaxInt32 or the last index where `dif < mindif` holds, which mindif never lowers |
| Prototype.FindValueOf | netcdf.go:349-396 | kinds other than INT and FLOAT give -1 and "Value not found"; INT and FLOAT never report an error |
| Prototype.FindValue | netcdf.go:349-396 | the loop updating min computes FindValueOf |
| Prototype.FindValueAgreesWithIndexOf | netcdf.go:356-393 | on INT and FLOAT a match is found exactly where indexOf finds it; on a miss FindValue answers with the fallback index where indexOf fails |
| Prototype.IntFallbackIsLastIndex | netcdf.go:363-374 | for INT the fallback is the last index, or MaxInt32 for an empty variable |
| Prototype.FindValueIntExact | netcdf.go:356-374 | for INT the answer is the first value equal to int32(value), and otherwise the fallback; no error either way |
| Prototype.GetData | netcdf.go:287-347 | the product loop and the buffer compute GetDataOf |
| Prototype.GetDataAgreesWithSlice | netcdf.go:287-347 | GetData answers as getSlice on SHORT, INT, FLOAT and DOUBLE, and refuses BYTE, CHAR and INT64, which getSlice serves |
| Prototype.FirstNamed | netcdf.go:254-272 | the first coordinate bearing the name; none exactly when no coordinate bears it |
| Prototype.ResolveCoordinate | netcdf.go:254-268 | iMin and iMax by FindValue, with only the Max lookup's error checked; literal bounds truncated without a coordinate variable |
| Prototype.DimBounds | netcdf.go:247-276 | offsets and lengths per dimension, each given by its own DimBound; success exactly when every dimension resolves |
| Prototype.DimBoundsStops | netcdf.go:247-276 | the first dimension that fails decides the error |
| Prototype.Extract | netcdf.go:230-283 | the array-filling loop computes ExtractOf |
| Prototype.ResolveDim | netcdf.go:248-275 | the inner loop breaks at the first coordinate bearing the dimension's name |
| Prototype.UnconstrainedDimension | netcdf.go:273-275 | a dimension no coordinate names keeps offset 0 and its full length |
| Prototype.UnknownCoordinateIgnored | netcdf.go:247-276 | adding a coordinate that names no dimension changes nothing |
| Prototype.FirstCoordinateWins | netcdf.go:254-272 | a coordinate added after one already naming the dimension is ignored for it |
| Prototype.FirstNamedAppend | netcdf.go:254-272 | the first coordinate bearing a name is unchanged by appending one that does not come first |
| Prototype.DimBoundsPointwise | netcdf.go:247-276 | coordinate lists that give every dimension the same bound give the same offsets and lengths |
| Prototype.MinErrorComesWithMaxError | netcdf.go:256-264 | the unchecked error of the Min lookup occurs exactly when the Max lookup fails too |
| Hooks.RegisterAppends | storage.go:45-55 | On appends the handler to its own event type's list and leaves every other list unchanged |
| Hooks.Ids | storage.go:66-67 | the names of the handlers, in order |
| Hooks.FirstFailure | storage.go:66-70 | the position of the first handler that fails; all before it succeed |
| Hooks.FireTriggered | storage.go:63-73 | running the handlers one by one and stopping on an error does exactly what Triggered states: everything up to the first failure runs and its error is returned; otherwise all run and the result is nil |
| Hooks.IdsCons | storage.go:66-67 | the names of a handler list start with its first handler's name |
| Hooks.Storage.constructor | storage.go:33-43 | a new storage has an empty registry |
| Hooks.Storage.On | storage.go:45-55 | the registry afterwards is the old one with h appended to evt's list |
| Hooks.Storage.Resolve | storage.go:59-61 | the resolved file keeps the virtual path |
| Hooks.Storage.Trigger | storage.go:63-73 | the handlers of e's type run in registration order until the first error, which is returned; nil when none fails or none is registered |
| Hooks.Storage.Apply | storage.go:75-84 | a failed operation runs no handler and reports nil; a successful one triggers the event on the resolved file |
| Hooks.Storage.Save | storage.go:86-90 | a successful write triggers SAVE on the resolved file |
| Hooks.Storage.Delete | storage.go:92-96 | a successful removal triggers DELETE on the resolved file |
| Hooks.Storage.Read | storage.go:98-102 | a successful read triggers READ on the resolved file |
| Hooks.CleanBeforeInsert | main.go:133-171 | with clean registered before insert, a failing clean stops the insert and returns its error; otherwise both run and the insert's outcome is returned |
| Hooks.RegisteredTwice | storage.go:45-55 | two registrations for SAVE list both handlers in registration order |
| Files.HexValue | file/file.go:33 | a hex digit's value is below 16 |
| Files.Hex | file/file.go:33 | hex.EncodeToString gives two hex digits per byte |
| Files.HexByte | file/file.go:33 | one byte spells as two hex digits |
| Files.HexValueOf | file/file.go:33 | each digit of the alphabet reads back as its value |
| Files.UnhexHex | file/file.go:33 | decoding the hex spelling gives back the bytes |
| Files.UnhexSnoc | file/file.go:33 | decoding a spelling with one more byte's digits appends that byte |
| Files.Reduce | file/file.go:34 | the cleaned element stack holds only non-empty elements other than ".", all taken from the path |
| Files.JoinSnoc | file/file.go:34 | joining one more part appends the separator and the part |
| Files.JoinUnder | file/file.go:34 | filepath.Join of a directory and a plain name is the cleaned directory followed by the name |
| Files.JoinUnderDir | file/file.go:34 | cleaning dir/name for a plain name puts the name under the cleaned dir |
| Files.SpellSnoc | file/file.go:34 | spelling one more plain element puts it under the spelled stack |
| Files.JoinHead | file/file.go:34 | a join starts with its first part |
| Files.HexIsPlain | file/file.go:33-34 | a hex id is a plain path element |
| Files.Resolve | file/file.go:30-36 | the virtual path is kept, and the id is 32 lowercase hex digits |
| Files.ResolveLayout | file/file.go:30-36 | the id decodes back to the MD5 digest, and the real path is directly under the cleaned directory, whatever the virtual path contains |
| Watcher.Rewatch | watcher/watcher.go:45-51 | at most one event per watched path, every one a rename |
| Watcher.ArrowInjective | watcher/watcher.go:48 | "k -> k" determines k |
| Watcher.RewatchOncePerFile | watcher/watcher.go:45-51 | each watched non-directory file gets exactly one "k -> k" rename, and nothing else gets one |
| Watcher.Stop | watcher/watcher.go:53-64 | the live stream ends at the first error or close signal |
| Watcher.Forwarded | watcher/watcher.go:55-57 | no more events are forwarded than changes arrive |
| Watcher.ForwardedFiles | watcher/watcher.go:55-57 | changes to files are all forwarded, path and op unchanged, in arrival order |
| Watcher.ForwardedSkipsDirectories | watcher/watcher.go:56 | changes to directories are never forwarded |
| Watcher.RewatchEveryFile | watcher/watcher.go:45-51 | whatever order `range` visits the watched map in, each watched non-directory file gets exactly one "k -> k" rename and no other path gets one |
| Watcher.Watch | watcher/watcher.go:42-65 | the rewatch renames (none when rewatch is off), then the live file events; fatal exactly when the stream stops on an error |
| Catalog.SplitOn | storage/storage.go:70 | strings.Split always yields at least one piece |
| Catalog.SplitOnNoArrow | storage/storage.go:70 | a path without '>' splits into itself |
| Catalog.SplitOnArrow | storage/storage.go:70 | splitting cuts at the first " -> " when the part before it holds no '>' |
| Catalog.RenameSplits | storage/storage.go:69-76 | "old -> new" splits back into old and new when neither holds '>' |
| Catalog.ArrowInPathMisSplits | storage/storage.go:70 | a rewatch rename of a path containing " -> " splits into four pieces, so the listener reads a different rename |
| Catalog.Accepted | storage/storage.go:95-101 | the leading rows the table accepts, stopping at the first refused |
| Catalog.WithoutCounts | storage/storage.go:106-110 | the delete removes every row of the path and keeps every other row as many times as it was there |
| Catalog.WithoutAppend | storage/storage.go:85 | the delete acts row by row |
| Catalog.WithoutNone | storage/storage.go:85 | deleting a path that no row carries changes nothing |
| Catalog.WithoutAll | storage/storage.go:85 | deleting the path that every row carries leaves nothing |
| Catalog.WithoutLeavesNoRow | storage/storage.go:106-110 | after the delete no row of the path remains |
| Catalog.CreateTwiceDuplicates | storage/storage.go:53-60 | two creates without a remove between them insert the file's rows twice |
| Catalog.RewatchRefreshes | storage/storage.go:69-76 | a "k -> k" rename deletes every row of k's relative path, then inserts a fresh extraction of k |
| Catalog.RewatchIdempotent | storage/storage.go:69-76 | a second rewatch of the same file changes nothing more |
| Catalog.RefreshTwice | storage/storage.go:69-76 | refreshing a path's rows twice is the same as refreshing them once |
| Catalog.Catalog.constructor | storage/storage.go:46-82 | the catalog starts with the given table |
| Catalog.Catalog.InsertMetadata | storage/storage.go:88-104 | a failed extraction inserts nothing; otherwise the rows are inserted in order up to the first refused one, whose error is returned, and the earlier rows stay |
| Catalog.Catalog.CleanMetadata | storage/storage.go:106-110 | the table loses exactly the rows of the file's relative path |
| Catalog.Catalog.Dispatch | storage/storage.go:52-77 | create inserts, remove deletes, rename "old -> new" deletes old then inserts new; any other op leaves the table unchanged |
| Catalog.Catalog.Listen | storage/storage.go:46-82 | the events are applied in arrival order |
| Migration.TagOf | cmd/migration/main.go:106-122 | "A", "D", "V" and "VA" map to their tags, and any other type to none |
| Migration.Convert | cmd/migration/main.go:106-122 | a D value becomes its base-10 int64, and a parse failure is fatal; A and V values are text, VA a blob, other types nil; path and key are kept |
| Migration.DimMigrates | cmd/migration/main.go:110-115 | a D entry as the flattener writes it migrates to its length |
| Migration.Records | cmd/migration/main.go:106-122 | one record per row, in order |
| Migration.FatalStays | cmd/migration/main.go:124-126 | after a fatal error nothing more happens |
| Migration.MigrateRows | cmd/migration/main.go:93-156 | the loop computes Migrate: its writes and whether it stopped fatally |
| Migration.RunHolds | cmd/migration/main.go:93-156 | the loop stops exactly on a row that does not convert; until then the writes and the buffer hold the records of the rows read, in order |
| Migration.FlattenSnoc | cmd/migration/main.go:150-151 | one more write adds its batch to the records written |
| Migration.LastRowNeverWritten | cmd/migration/main.go:133-153 | in a run where every row converts, the writes hold all the records except the last row's, which stays in the buffer |
| Migration.TwoRowsOneLost | cmd/migration/main.go:133-153 | two rows of one file produce a single write holding only the first row's record |
| Migration.WritesBeforeEnd | cmd/migration/main.go:128-151 | before the last row, a write happens exactly at each path change |
| Migration.KeyedBeforeEnd | cmd/migration/main.go:128-155 | before the last row, the buffer holds only rows of previous's path, and each write only rows of its key's path |
| Migration.WriteCount | cmd/migration/main.go:133 | the number of writes is the number of path changes, plus one unless the last row itself starts a new path |
| Migration.WritesKeyedByPath | cmd/migration/main.go:128-151 | every batch holds only records of the path it is written under |
| Migration.AddTo | cmd/migration/main.go:128-153 | the last batch after adding a record is under the record's path |
| Migration.Group | cmd/migration/main.go:93-156 | the intended grouping is empty exactly when there are no records |
| Migration.FlattenAddTo | cmd/migration/main.go:128-153 | adding a record to the grouping appends it to the records written |
| Migration.KeyedAddTo | cmd/migration/main.go:128-153 | adding a record keeps every batch non-empty and under its own path |
| Migration.AlternatingAddTo | cmd/migration/main.go:128-153 | adding a record keeps neighbouring batches under different paths |
| Migration.GroupFlatten | cmd/migration/main.go:93-156 | the grouping writes every record once, in order |
| Migration.GroupKeyed | cmd/migration/main.go:93-156 | each batch is non-empty and holds only records of its path, and neighbouring batches are under different paths |
| Migration.Push | cmd/migration/main.go:128-155 | buffering one record, flushing first on a path change, keeps the buffer as the open last batch of the grouping |
| Migration.MigrateGrouped | cmd/migration/main.go:93-156 | the corrected loop is fatal exactly when some row does not convert; otherwise its writes are the grouping of all the records |

## Left out

- Floating point:
  - FLOAT and DOUBLE values are held as raw IEEE-754 bit patterns.
  - The 1e-15 tolerance tests on them, and the finiteness of the float32 difference in FindValue, are uninterpreted predicates (`Codec.FloatOps`).
  - Query bounds are exact reals.
  - Codec.ToInt: a float-to-integer conversion outside the target kind's range (int16, int32, int64) is implementation-defined in Go (on amd64 `int32(3e9)` is MinInt32); the model wraps it to the width. For such query bounds the match target in Hyperslab.IndexOfIntegerExact and Prototype.FindValueIntExact is the model's, not Go's.
- The netCDF library is an abstract dataset:
  - file opening and closing are left out;
  - a failure of `Type()`, `Len()` or the attribute readers is left out;
  - only the checked failures of dimension names and lengths, variable names and dimension lists are modelled.
  - Go's `int(l)` of a dimension length assumes the length fits.
- Prototype errors: the older engine's errors are bare strings ("Type mismatch" at netcdf.go:59 and 345, "Value not found" at netcdf.go:395) and Extract passes on the library's own error for an unknown variable (netcdf.go:236-239). The model reuses `Hyperslab.Error`, whose payloads (`TypeMismatch(kind)`, `ValueNotFound(value)`, `VariableNotFound(name)`) carry a kind, value or name that these Go errors do not.
- Runtime panics become error outcomes. In Hyperslab.Lookup (netcdf/netcdf.go:85-90, 116-123) a negative element count in `make` is caught by a deferred `recover` and gives `Panicked`. The root netcdf.go has no `recover`, so the same negative `make` in Prototype.GetData (netcdf.go:287-347, reachable from Extract on a descending coordinate variable) is an uncaught panic that ends the program; the model gives `Panicked` there too. The other uncaught index panics: attrValue on an empty numeric attribute gives `IndexOutOfRange`; GetAttValue and GetValue on an empty INT or FLOAT give `Panicked`.
- extractVariables (netcdf/metadata.go:182-236) aborts the whole extraction when a variable's dimensions cannot be read; the model follows the code.
- Hyperslab.Bounds: offsetsWithLengths (netcdf/netcdf.go:60-73) does not check that index(Max) >= index(Min); the model follows the code (Hyperslab.DescendingBoundsGiveNegativeLength shows the negative length).
- Hyperslab.CoordBound: the literal bounds `int(c.Min)` and `int(c.Max-c.Min) + 1` (netcdf/netcdf.go:57-58) use Go's 64-bit `int`; the model truncates to an unbounded integer, so a bound outside int64 (implementation-defined in Go) and an overflow of the `+ 1` are not modelled. The same holds for Prototype.ResolveCoordinate (netcdf.go:266-267).
- Hyperslab.Slice: the element count `total *= l` (netcdf/netcdf.go:130, netcdf.go:296) is int64 arithmetic that can overflow, possibly to a negative count that panics; the model's `Product` is unbounded, so such an overflow is not modelled. The same holds for Prototype.GetDataOf.
- Extract's dimension-length error is ignored in the code (netcdf.go:252): the model takes the length as 0.
- json.Marshal, gob, MD5 and the catalog's `FromFullPath` and `ExtractMetadata` are functions given to the model (`Marshal`, `Files.Digest`, `Catalog.Env`). A nil file from a failed `FromFullPath` is not modelled.
- Prototype.NetcdfFileHandler: only the construction of entries is modelled. The database save, transaction and logging are left out.
- The catalog listener's goroutines and the worker pool are left out: events are applied one at a time in arrival order. Races between the tasks of successive events are not captured.
- Catalog.Dispatch: a rename without " -> " would index past the split in the code; the model requires the separator (`Dispatchable`).
- Catalog.Catalog.CleanMetadata: a failing DELETE is not modelled.
- The migration tool's SQL query, `kv.Set` and gob failures, Scan errors and logging are left out. `total` is taken as the number of rows the query returns. The `ORDER BY` is assumed: the rows arrive in (path, type, key) order.
- Go's map iteration order in Watch's rewatch loop is a parameter (`order`), constrained by `Watcher.RangeOrder` to visit every watched path exactly once. `WatchedFiles` and the polling interval are left out. `log.Fatal` on a watcher error is the `fatal` outcome.
- `NewStorage`, `NewFileService`, `MkdirAll`, the file service's Save, Delete and Read I/O, HTTP routing in main.go and cmd/storage, and catalog.go are not part of this model.
- Files.Resolve is deterministic because it is a function; "touches no disk" is not stated separately.
- The `Index` field of a coordinate is not used by the code and is not modelled.
- Hooks.CleanBeforeInsert: main.go's handlers are values whose outcome is given; their database work is not modelled.

## Findings

| source | as written | input that shows it | evidently intended | confidence | as-written member | corrected member |
|---|---|---|---|---|---|---|
| cmd/migration/main.go:133-153 | the batch is flushed before the current row is appended, and nothing is written after the loop, so the row with i == total is never written | two rows of one file, ("f.nc", "A", "title", "x") and ("f.nc", "A", "units", "y"): one write holding only the title record | every row written, grouped into one batch per path | not executed | Migration.LastRowNeverWritten | Migration.MigrateGrouped |
