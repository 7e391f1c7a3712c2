# gorma schema core, modelled in Dafny

gorma is a goa plugin that generates gorm-based storage code from a design.
A design is a tree of definitions: storage groups hold relational stores,
stores hold relational models, and models hold relational fields. This
project models the parts of gorma that do not depend on templates:

- **Naming** (`naming.dfy`) models the identifier helpers:
  - `commonInitialisms` and `startsWithInitialism`;
  - `camelToSnake`, whose camel-case splitter is given a declarative description (`WellSplit`) that is proved to determine the split uniquely;
  - `deModel`, `unexport`, `isASCIILower` and `isASCIIDigit`.
- **Metadata** (`metadata.dfy`) models `metaLookup` and `metaLookupTmpl`: a case-insensitive lookup of gorma-namespaced keys in a metadata map, scanned in Go's unspecified map order.
- **Design** (`design.dfy`) holds goa's attributes, objects and user types as gorma reads them, and `isDateTimeFormat`.
- **Associations** (`associations.dfy`) models:
  - `includeForeignKey`, `includeChildren`, `includeMany2Many`, `includeTimeStamps` and `StorageDef`, which expand association metadata into struct fields or storage-interface methods;
  - the index panics that Go raises on a malformed many-to-many entry.
- **PrimaryKey** (`primarykey.dfy`) models `setupIDAttribute`. It moves the object's id field to the key "id", or creates an integer one. It then tags that field as the primary key unless the user already tagged it.
- **StructGen** (`structgen.dfy`) models the field part of `ModelDef`:
  - the keys are collected and sorted;
  - each field line is written with its Go name, Go type and json/gorm/sql tags;
  - the date-time fields are remembered in the generator's package-level `timeFields`.
- **Definitions** (`definitions.dfy`) holds the four definition kinds and their `Validate` methods. Each `Validate` reports a node's own missing name or parent link first, then every error below it.
- **Runner** (`runner.dfy`) models the DSL context:
  - the current-definition slot and the four kind accessors;
  - `topLevelDefinition`;
  - `incompatibleDSL`, which reports "invalid use of" followed by the last segment of the caller's name.
- **ModelDsl** (`relationalmodel.dfy`) models the `RelationalModel` DSL function, which registers a model in the current store.
- **GoStrings** (`gostrings.dfy`) holds the parts of Go's `strings` package used above, restricted to ASCII case mapping:
  - `Split` and `Join`, with both round trips;
  - `ToLower`;
  - the byte-wise string order used by `sort.Strings`.

Go map iteration has no fixed order. Every range over a map is therefore a
loop that picks an arbitrary remaining key (`:|`). Each contract holds
whichever order the loop takes.

## Model

| member | source | states |
|---|---|---|
| Naming.CommonInitialismsShaped | helpers.go:445-477 | every initialism has two to five characters and starts with two upper-case letters; the splitting proofs rely only on this |
| Naming.StartsWithInitialism | helpers.go:420-429 | the result is LongestInitialism: the longest table entry among the prefixes of length 1 to 5, or "" |
| Naming.LongestInitialismFound | helpers.go:423-427 | what is found is "" or an entry of the table |
| Naming.LongestInitialismPrefix | helpers.go:424-425 | what is found is a prefix of the input |
| Naming.LongestInitialismMaximal | helpers.go:423-427 | no longer prefix within the bound is in the table |
| Naming.NoInitialismBeforeLower | helpers.go:420-429 | a word whose second character is not upper-case starts with no initialism |
| Naming.Words | helpers.go:56-74 | the words split out are non-empty and concatenate back to the input |
| Naming.WordsWellSplit | helpers.go:56-69 | the split obeys the declarative rule: a new word at each upper-case letter unless an initialism at the start of the word covers it, and a matched initialism is the longest one |
| Naming.WellSplitUnique | helpers.go:56-69 | any decomposition obeying that rule is the one camelToSnake computes |
| Naming.CamelToSnakeWith | helpers.go:50-85 | the loop over the runes and the join loop produce the lower-cased words joined by "_" |
| Naming.CamelToSnake | helpers.go:50-85 | the same with commonInitialisms; "" maps to "" |
| Naming.SnakeCaseNoUpper | helpers.go:76-82 | the result has no upper-case letter |
| Naming.SnakeCaseErasesToLower | helpers.go:50-85 | deleting the "_" separators leaves the lower-cased input, with its own underscores deleted too |
| Naming.SnakeCaseAlphabet | helpers.go:405-412 | an input of ASCII letters and digits gives only isASCIILower letters, isASCIIDigit digits and "_" |
| Naming.ApiKeyIdExample | helpers.go:56-69 | "APIKeyID" splits into API, Key and ID, and gives "api_key_id" |
| Naming.IsASCIILower | helpers.go:405-407 | the ASCII lower-case letters are exactly the lower-casings of the upper-case letters |
| Naming.IsASCIIDigit | helpers.go:410-412 | true exactly for the ten characters of "0123456789", which lower-casing leaves alone and which are not letters |
| Naming.DeModel | helpers.go:93-95 | the result is no longer than the input; what it removes is stated by DeModelIdentity and DeModelSplice |
| Naming.DeModelIdentity | helpers.go:93-95 | text without "Model" is unchanged |
| Naming.DeModelSplice | helpers.go:93-95 | each occurrence of "Model" is removed, and the text on either side is treated independently |
| Naming.Unexport | helpers.go:415-417 | the empty string panics on s[0:1]; otherwise the first character is lower-cased and the rest is kept, so the length and the lower-cased form are unchanged |
| Naming.UnexportIdempotent | helpers.go:415-417 | unexporting twice is unexporting once |
| Metadata.MetaLookup | helpers.go:109-119 | ok exactly when some key equals the namespaced tag ignoring case; the value is that key's value; otherwise ("", false) |
| Metadata.MetaLookupTmpl | helpers.go:122-125 | a found value, or "" when no key matches |
| Metadata.LookupDetermined | helpers.go:109-119 | when the matching spellings agree, the value found is the value of the exact namespaced key, whatever the map order |
| Metadata.AddedTagIsFound | helpers.go:109-119 | after adding the exact namespaced key to a map that had no match, the lookup finds exactly the added value |
| Metadata.CaseInsensitive | helpers.go:110-113 | a key matches exactly when its lower-cased form matches |
| Design.IsDateTimeFormat | helpers.go:250-262 | true exactly for a string attribute with a Format("date-time") validation |
| Associations.IncludeForeignKey | helpers.go:146-157 | "" without "#belongsto"; otherwise one "<child>ID int" line per comma-separated entry, in order |
| Associations.ForeignKeyLinesRead | helpers.go:146-157 | the text splits back at newlines into one line per entry |
| Associations.IncludeChildren | helpers.go:166-183 | the has-many lines ("<plural> []<child>") for "#hasmany", followed by the has-one pairs for "#hasone"; each part is empty when its tag is absent |
| Associations.HasOneFieldsShape | helpers.go:175-181 | two lines per has-one entry: the value field, then the nullable "ID" field |
| Associations.IncludeMany2Many | helpers.go:187-198 | without "#many2many" the result is ""; otherwise one tagged slice field per entry, or the index panic of the first entry with fewer than three ":" segments |
| Associations.Many2ManyOkIff | helpers.go:192-195 | no panic exactly when every entry has at least three segments; a panic is at index 1 or 2 |
| Associations.StorageDef | helpers.go:129-142 | List, Add and Delete methods per "#many2many" entry, or the index panic of the first entry without a ":" |
| Associations.StorageFieldsShape | helpers.go:134-139 | three lines per entry, in entry order |
| Associations.StorageOkIff | helpers.go:134-139 | no panic exactly when every entry has at least two segments |
| Associations.Many2ManyOkStorageOk | helpers.go:131-138 | entries that the struct generator accepts are accepted by the storage interface too |
| Associations.IncludeTimeStamps | helpers.go:238-246 | "" when "#skipts" is set; otherwise the CreatedAt, UpdatedAt and DeletedAt lines |
| PrimaryKey.SetupIDAttribute | helpers.go:337-373 | "id" is a key afterwards. An id spelling found (ID, Id or id) is moved to "id"; none found adds a fresh integer attribute. The key tag is "#gormpktag" or "primary_key". The id attribute's metadata receives it unless a gormtag is present. No other attribute's metadata changes (the predicate KeyNormalised) |
| PrimaryKey.FindIdName | helpers.go:338-345 | "" exactly when no key is an id spelling; otherwise an id spelling that is a key |
| PrimaryKey.NormalizeIdKey | helpers.go:347-358 | the found key moved to "id" with every other key kept, or a new integer attribute with empty metadata added |
| PrimaryKey.TagPrimaryKey | helpers.go:360-370 | the chosen tag and the tagged metadata |
| PrimaryKey.MoveKey | helpers.go:349-352 | the entry is moved to "id", the old key is gone, and the other entries are unchanged |
| PrimaryKey.MoveKeyKeys | helpers.go:349-352 | the keys after the move are the old keys minus the spelling, plus "id" |
| PrimaryKey.Tagged | helpers.go:367-370 | a gormtag is present afterwards; an existing tag is left alone; otherwise the tag found is exactly the chosen one |
| PrimaryKey.TaggedIdempotent | helpers.go:367-370 | tagging an already tagged attribute changes nothing |
| StructGen.SortedKeys | helpers.go:275-281 | the keys of the object, each once, in strictly ascending order |
| StructGen.CollectKeys | helpers.go:275-280 | the collected keys are distinct and are exactly the map's keys |
| StructGen.SortSpec | helpers.go:281 | sorting distinct keys gives a strictly ascending permutation |
| StructGen.SortedUnique | helpers.go:281 | two strictly ascending permutations of the same keys are equal, so the field order does not depend on map order |
| StructGen.WriteField | helpers.go:283-318 | one field line: the description comment, the Go name with "Time" for date-time fields, *time.Time or the Go type, then the tags; the name is remembered when it is a date-time field |
| StructGen.AppendField | helpers.go:282-319 | one more field extends the text and the time-field list by that field |
| StructGen.WriteFields | helpers.go:282-319 | after the loop, the buffer holds every field's text in key order, and the names collected are the Go names of the date-time fields |
| StructGen.WriteStruct | helpers.go:273-330 | the keys are the object's keys in strictly ascending order, and the text is the fields' lines in that order, then the sections and "}" |
| StructGen.Generator.ModelDef | helpers.go:265-334 | a non-object type panics. Otherwise the object's key is normalised exactly as SetupIDAttribute states it (KeyNormalised, against the fields before the call), the object is not touched afterwards, and the struct lists every field of the normalised object in ascending key order, followed by the sections and "}"; timeFields holds the date-time fields' Go names |
| StructGen.TimeFieldNamesSpec | helpers.go:293-297 | the time fields are exactly the Go names of the date-time keys |
| StructGen.JsonOmitEmptyIff | helpers.go:299-313 | the json tag has ",omitempty" exactly when the field is not required |
| StructGen.GormTagOverrides | helpers.go:305-309 | a user "#gormtag" is used as it is, for date-time fields too |
| StructGen.ColumnTagIffTime | helpers.go:305-309 | without a "#gormtag", a gorm column tag with the lower-cased name appears exactly for date-time fields |
| Definitions.StorageGroup.Validate | validate.go:6-17 | the group's own error comes first; the errors are those of the group and of every store below it; there are none exactly when the whole tree is named and linked |
| Definitions.RelationalStore.Validate | validate.go:20-34 | name error, then parent error, then every model's errors; none exactly when the store's subtree is consistent |
| Definitions.RelationalModel.Validate | validate.go:37-52 | name error, then parent error, then every field's errors; none exactly when the model and its fields are named and linked |
| Definitions.RelationalField.Validate | validate.go:55-65 | the parent error, then the name error |
| Definitions.FieldErrors | validate.go:55-65 | the parent error appears exactly when the parent is missing, and the name error exactly when the name is empty; the parent error comes first |
| Definitions.ValidateStores | validate.go:11-14 | the merged errors of every store, whatever order the stores are visited in |
| Definitions.ValidateModels | validate.go:28-31 | the merged errors of every model, in any visiting order |
| Definitions.ValidateFields | validate.go:46-49 | the merged errors of every field, in any visiting order |
| Definitions.BagSumRemove | validate.go:11-14 | merging does not depend on which child comes first |
| Definitions.ModelBagEmpty | validate.go:37-52 | a model reports nothing exactly when it is consistent |
| Definitions.StoreBagEmpty | validate.go:20-34 | a store reports nothing exactly when it is consistent |
| Definitions.UnnamedModelReported | validate.go:20-34 | an unnamed model is reported by its store, whatever else is wrong there |
| Definitions.UnnamedFieldReportedByGroup | validate.go:6-17 | an unnamed field two levels down is reported by the group; validation does not stop at the first error |
| Runner.LastSegment | runner.go:62-65 | the longest dot-free suffix: it has no dot, and it is the whole name or follows a dot |
| Runner.LastSegmentOfQualified | runner.go:62-65 | the last segment of "pkg.Name" is Name |
| Runner.InvalidUse | runner.go:62-65 | the message is "invalid use of " followed by a dot-free name |
| Runner.DslContext.IncompatibleDSL | runner.go:62-65 | exactly one error is appended, and the current definition is unchanged |
| Runner.DslContext.TopLevelDefinition | runner.go:12-18 | true exactly when no definition is current; one error exactly when the fail flag is set and one is current |
| Runner.DslContext.StorageGroupDefinition | runner.go:22-28 | (group, true) exactly when a storage group is current, else (null, false); one error exactly on a mismatch with the fail flag set |
| Runner.DslContext.RelationalStoreDefinition | runner.go:32-38 | the same for a relational store |
| Runner.DslContext.RelationalModelDefinition | runner.go:42-48 | the same for a relational model |
| Runner.DslContext.RelationalFieldDefinition | runner.go:52-58 | the same for a relational field |
| ModelDsl.StoreAsWritten | dsl/relationalmodel.go:13-24 | as written: a nil map becomes empty; an existing name is unchanged; a new name is stored with nil; no other key changes |
| ModelDsl.RelationalModel | dsl/relationalmodel.go:7-26 | out of store context, only the caller's error is reported. In store context, a nil map becomes a map with "name" in it. An existing name keeps its definition. A new name gets a fresh definition with that name and closure. No other key changes |
| ModelDsl.DeclaredModelIsReported | dsl/relationalmodel.go:18-21 | a model registered this way has no parent link, so validation reports "missing relational store parent" for it |

## Left out

- The definition types themselves (goa's design and gorma's definition structs) are not part of this model. Their fields are declared from what the modelled code reads:
  - definition fields that no modelled operation writes are `const`;
  - what changes in place is a store's model map (`RelationalModel`), an object's field map and an attribute's metadata (`setupIDAttribute`).
- Definitions.StorageGroup.Validate: the visiting order of `IterateStores` is not modelled (the Iterate* helpers are not part of this model), so the children's errors are stated as a multiset; the node's own errors are stated in order.
- Definitions.RelationalStore.Validate: the visiting order of `IterateModels` is not modelled either, so its models' errors are stated as a multiset.
- Definitions.RelationalModel.Validate: the visiting order of `IterateFields` is not modelled either, so its fields' errors are stated as a multiset.
- goa's ValidationErrors is a sequence of (definition, message) pairs. Merging a nil result appends nothing, and the nil that AsError returns is the empty sequence.
- Runner.DslContext.IncompatibleDSL: goa's ReportError formats the message and records the DSL file and line. Only the message text is modelled.
- `caller()` inspects the runtime stack, so the caller's function name is an input string.
- `dsl.Current()` is the `current` field of the context.
- `checkInit` is treated as a no-op.
- `RelationalModel` neither pushes the new model as the current definition nor evaluates its closure; the model follows that code.
- `codegen.Goify`, `codegen.GoTypeDef` and `inflection.Plural` are opaque functions passed as parameters.
- `codegen.WriteTabs` is left out. The one tab before each field is part of the field text.
- StructGen.Generator.ModelDef: the `genfuncs` loop iterates a Go map, so the order of the optional sections is unspecified. Their text is a parameter; `includeAuthboss` and `MakeTimeFuncs` are not modelled.
- StructGen.Generator.ModelDef: `sections` is a plain string, so a panic raised while a section is generated (such as the index panic of a malformed many-to-many entry, `Associations.Many2ManyOutcome`) cannot reach its result.
- StructGen.Generator.ModelDef: `timeFields` is assigned once, after the field loop (`StructGen.WriteFields` collects the names), instead of being reset and then appended to field by field. The final value is the same.
- Unicode:
  - case mapping is ASCII only;
  - one character stands for one byte and one rune, which is where camelToSnake's rune indexing and byte slicing agree.
- Metadata maps are never nil. A nil metadata map on a user "id" attribute would panic at helpers.go:369.
- `modelDir`, `GetAttributeColumns`, `plural`, `titleCase` and `upper` are thin wrappers over the file system, goa or Unicode, and are left out.
- Template execution and the generated example code are left out.

## Findings

| source | as written | input that shows it | evidently intended | confidence | as-written member | corrected member |
|---|---|---|---|---|---|---|
| dsl/relationalmodel.go:16-24 | the definition built for a new name is bound to a new `store` declared inside the `if` block, which shadows the outer one; Go would also reject the unused inner variable. The map then receives the outer `store`, the nil result of the failed lookup | `RelationalModel("User", f)` in a store without a "User" model: the map receives "User" mapped to nil | store the new definition (name and closure) under its name | not executed | ModelDsl.StoreAsWritten | ModelDsl.RelationalModel |

Re-declaring a name keeps the earlier definition in both members. A new
name loses its definition only in the code as written.
