# Asset pipeline and content readers, modelled in Dafny

This project models the offline asset pipeline of the repository (`AssetLoader/`) and the
bookkeeping of the renderer's two content readers (`Experiments/ContentLoader.cpp`,
`Experiments/TestRenderer.cpp`), and proves what these promise.

The asset loader reads a config file naming a source root, an output root and a list of
OBJ models. For every model whose output is stale against its `.time` sidecar it parses
the OBJ and MTL files into welded vertex and index buffers with objects, parts and
materials. It then writes the packed `.model` container, and finally stamps the `.time`
file. The renderer side sizes a geometry pool to a model header and hands out index
ranges from it. It builds meshes from the part records and loads each part's textures
through a path-keyed cache, laying out the mip chain of each texture for the device.

Modules, in the order of the program's structure:

- `Common`, `Crt`: optional values, the `Outcome` of a step the C++ leaves undefined,
  32-bit unsigned arithmetic, and the C runtime string functions the code calls
  (`strtok_s`, `_strnicmp`, `strcpy_s`, `atoll`, NUL-terminated strings).
- `StringHelpers`: `StringHelpers.h`.
- `AssetTypes`: `AssetType` and the `SourceAsset` constructor of `Assets.h`.
- `FileSystem`: the file system as a class over a map from path to node, with a clock.
  It provides directory and file creation, appends and last-write times.
- `Config`, `AssetLoaderMain`: `ReadConfig` and `wmain` of `AssetLoader/Main.cpp`.
- `Assets`: `ProcessAssets` and its helpers in `Assets.cpp`.
- `ObjScene`, `ObjLines`, `ObjFace`, `ObjMtl`, `ObjLoad`: the OBJ and MTL importer of
  `ObjModel.cpp` as functions of the file text.
- `ObjFan`: the triangle fan of a face line, defined on its own from the corners the
  tokens describe, and the proof that the face loop welds exactly that fan.
- `ObjModelClass`: `struct ObjModel` as a class whose methods update its fields as the
  C++ does. Each method is proved to end in the state those functions describe.
- `ModelFormat`, `ModelWriter`: the packed records of `AssetLoader.h` and the writer in
  `Model.cpp`.
- `Geometry`: `GeometryPool` and `GeoMesh`.
- `TextureLoading`: `LoadTexture`, which `ContentLoader.cpp` (lines 176-280) and
  `TestRenderer.cpp` (lines 464-568) implement with the same code.
- `TextureCaching`: `CachedTextureMap` and one texture slot of a part.
- `ReaderFormat`: the newer container both readers read, and a part's three slots.
- `ContentLoading`: `ContentLoader::LoadObject`.
- `TestRendering`: `TestRenderer::AddMeshes`.

Vertices are modelled by the source elements they are built from. In the importer a
vertex is its (position, texcoord, normal) index triple. In the writer it is the elements
a `ModelVertex` copies. Texture views record which load of the cache created them, so
that "each path is loaded at most once" can be stated.

Where the source leaves behaviour undefined, the model mostly returns `Undefined`. Examples
are a null part or material, an `operator[]` out of range, a `strcpy_s` or `wcscpy_s`
overflow, a 21st level written to `init[20]`, and a null pool dereferenced. The
exceptions are reads of one character just outside a buffer whose value cannot change
the result; "## Left out" lists them.

## Model

| member | source | states |
|---|---|---|
| StringHelpers.TrimLeadingWhitespace | AssetLoader/StringHelpers.h:5-13 | the result skips only leading spaces and tabs and starts at a non-blank character when it is not empty |
| StringHelpers.TrimLeadingIsSuffix | AssetLoader/StringHelpers.h:5-13 | the returned `char*` points into the input: the result is a suffix of the line |
| StringHelpers.TrimmedLength | AssetLoader/StringHelpers.h:16-29 | the terminator goes at least one character in, everything after it is blank, and the character before it is not blank unless it is the first |
| StringHelpers.TrimmedLengthUnique | AssetLoader/StringHelpers.h:16-29 | any cut with those three properties is the one `TrimTrailingWhitespace` makes |
| StringHelpers.TrimTrailingSpec | AssetLoader/StringHelpers.h:16-29 | the trimmed string is a prefix with only blanks cut; a line ending in a non-blank is unchanged; an all-blank line keeps its first character |
| StringHelpers.TrimTrailingWhitespace | AssetLoader/StringHelpers.h:16-29 | in place: a non-empty string changes in exactly one cell, the new terminator one past the trimmed length; an empty string not at the buffer start leaves the buffer unchanged |
| StringHelpers.EndOfString | AssetLoader/StringHelpers.h:20 | the walk forward stops at the first NUL from the line |
| StringHelpers.BackOverBlanks | AssetLoader/StringHelpers.h:22-27 | the walk back stops at the last character that is not a blank, or at the line's first character, with only blanks after it |
| StringHelpers.TrimTrailingWhitespaceValue | AssetLoader/StringHelpers.h:16-29 | after that write, the C string at the line is the trimmed string |
| StringHelpers.NulAt | AssetLoader/StringHelpers.h:20 | the walk to the end stops at the first NUL from the start |
| StringHelpers.Widen | AssetLoader/StringHelpers.h:31-36 | an ASCII `char` widens to the same code unit |
| StringHelpers.ConvertToWide | AssetLoader/StringHelpers.h:31-36 | same length, each code unit the widened input character |
| StringHelpers.ConvertToWideAscii | AssetLoader/StringHelpers.h:31-36 | an ASCII string converts to itself |
| StringHelpers.NormalizedSlashes | AssetLoader/StringHelpers.h:38-44 | same length; each backslash becomes `/`, every other character is kept |
| StringHelpers.NormalizeSlashes | AssetLoader/StringHelpers.h:38-44 | in place: the path's new contents are the normalised old contents |
| StringHelpers.NormalizedSlashesProperties | AssetLoader/StringHelpers.h:38-44 | no backslash is left, normalising twice equals once, a path without backslashes is unchanged |
| StringHelpers.EnsureTrailingSlash | AssetLoader/StringHelpers.h:46-52 | an empty path stays empty; otherwise the result ends in `/` and is the path or the path plus one `/` |
| StringHelpers.EnsureTrailingSlashIdempotent | AssetLoader/StringHelpers.h:46-52 | applying it twice equals applying it once |
| StringHelpers.ExtensionDot | AssetLoader/StringHelpers.h:56-66 | the backward scan finds a `.` with no `/` after it, or else every `.` has a `/` after it |
| StringHelpers.ExtensionDotFinds | AssetLoader/StringHelpers.h:56-66 | the scan finds the last `.` when no `/` or `.` follows it |
| StringHelpers.ReplaceExtension | AssetLoader/StringHelpers.h:54-70 | with an extension dot the prefix through it plus the new extension, otherwise the source plus `.` and the extension; always ends in `.` + extension |
| StringHelpers.ReplaceExtensionIdempotent | AssetLoader/StringHelpers.h:54-70 | with an extension free of `.` and `/`, replacing twice equals replacing once |
| StringHelpers.ReplaceExtensionBackslash | AssetLoader/StringHelpers.h:58 | only `/` stops the scan: the `.` before a backslash is still the extension |
| Crt.CStr | AssetLoader/ObjModel.cpp:52-58 | the C string is the prefix before the first NUL, holds no NUL, and is followed by one when shorter than the buffer |
| Crt.CStrOfNulFree | AssetLoader/ObjModel.cpp:132 | a NUL-free string is its own C string |
| Crt.CStrOfTerminated | AssetLoader/ObjModel.cpp:58 | the terminator written after a line ends its C string whatever the buffer holds after it |
| Crt.CStrSuffix | AssetLoader/ObjModel.cpp:132 | `line + k` within the C string reads the rest of that C string |
| Crt.StrCpySCopies | AssetLoader/Model.cpp:55 | `strcpy_s` succeeds exactly when the C string and its terminator fit, and then copies the C string |
| Crt.StrCpyS | AssetLoader/Model.cpp:55 | definition of `strcpy_s` into a buffer; `StrCpySCopies` states when it succeeds |
| Crt.StrNIEq | AssetLoader/Main.cpp:113-124 | definition of `_strnicmp(s, lit, n) == 0`: the first n characters agree up to case; `StartsWithKeywordChars` and `ConfigLineByKind` use it |
| Crt.Atoll | AssetLoader/ObjModel.cpp:207 | definition of `atoll`: blanks, an optional sign, decimal digits; `DigitsValueOfDigits` and `AtollOfDigit` state what it reads |
| Crt.SpanNot | AssetLoader/ObjModel.cpp:193 | the run before the first delimiter: no delimiter inside it, a delimiter right after it |
| Crt.Tokens | AssetLoader/ObjModel.cpp:193-218 | every token `strtok_s` returns is non-empty and free of delimiters |
| Crt.TokensNoDelims | AssetLoader/ObjModel.cpp:193-218 | each token, by position, is non-empty and delimiter-free |
| Crt.TokensOfUndelimited | AssetLoader/ObjModel.cpp:204 | a non-empty run without delimiters is one token |
| Crt.AtoU32 | AssetLoader/ObjModel.cpp:207 | the `(uint32_t)atoll` cast stays below 2^32 |
| Crt.DigitsValueOfDigits | AssetLoader/ObjModel.cpp:207 | a single digit reads as its value |
| AssetTypes.AssetTypeValue | AssetLoader/Assets.h:3-7 | the enumerators are 0 and 1, and `Model` is 0 |
| AssetTypes.Extension | AssetLoader/Assets.cpp:19-24 | each kind's output extension is non-empty and holds no `.` or `/` |
| AssetTypes.NewSourceAsset | AssetLoader/Assets.h:9-24 | the kind is kept and the path has the same length, each backslash turned into `/` and nothing else changed; no backslash is left |
| Assets.OutputFilename | AssetLoader/Assets.cpp:38 | the output name starts with the output root and is longer than it |
| Assets.TimeFilename | AssetLoader/Assets.cpp:123 | the time file is the output name plus five characters, never the output itself |
| Assets.NeedsBuild | AssetLoader/Assets.cpp:115-169 | definition of `DoesAssetNeedBuilt`; `NeedsBuildExactly` states when it builds and when it fails |
| Assets.EnsureDirs | AssetLoader/Assets.cpp:86-113 | definition of `EnsurePathExists` prefix by prefix; `EnsureDirsOnlyAddsPrefixes` and `EnsureDirsMakesEveryPrefix` state what it does |
| Assets.BuildSpec | AssetLoader/Assets.cpp:171-194 | definition of `BuildModel`, save after parse; the `BuildModel` method is proved against it |
| Assets.TimeEntrySpec | AssetLoader/Assets.cpp:196-231 | definition of `WriteTimeEntry`; `TimeEntryMakesUpToDate` states what it achieves |
| Assets.ProcessSpec | AssetLoader/Assets.cpp:14-84 | definition of `ProcessAssets`; `AllUpToDateChangesNothing`, `FailureIgnoresLaterAssets` and `BuiltModelIsUpToDate` state what it does |
| Assets.NeedsBuildExactly | AssetLoader/Assets.cpp:115-169 | no build exactly when the output exists, its time file holds a full `FILETIME` and the source is not newer; failure exactly for a short time file or a missing source, given that `ReadFile` and `GetFileTime` on an open file succeed |
| Assets.DoesAssetNeedBuilt | AssetLoader/Assets.cpp:115-169 | succeeds exactly when the decision is defined and then returns it; on failure `needsBuild` stays true |
| Assets.EnsureDirsOnlyAddsPrefixes | AssetLoader/Assets.cpp:86-113 | existing entries are kept, and every new entry is a directory at a prefix that ends just before a `/` |
| Assets.EnsureDirsMakesEveryPrefix | AssetLoader/Assets.cpp:86-113 | on success every such prefix of a NUL-free path exists |
| Assets.EnsuredParentReady | AssetLoader/Assets.cpp:86-113 | after success a file can be created at the path, unless a prefix already existed as a file |
| Assets.EnsurePathExists | AssetLoader/Assets.cpp:86-113 | the `char*` scan returns and leaves exactly what the prefix-by-prefix definition does |
| Assets.BuildModel | AssetLoader/Assets.cpp:171-194 | its result and new file system are those of save-after-parse, a parse failure only being logged |
| Assets.WriteTimeEntry | AssetLoader/Assets.cpp:196-231 | the time file is emptied first, then gets the source's eight-byte last-write time when the source opens |
| Assets.TimeEntryMakesUpToDate | AssetLoader/Assets.cpp:196-231 | right after a successful time entry an existing output needs no build |
| Assets.ProcessAsset | AssetLoader/Assets.cpp:33-80 | one turn of the loop does exactly what the turn's definition says |
| Assets.ProcessLoop | AssetLoader/Assets.cpp:31-81 | the loop runs the turns in order and stops at the first that returns false |
| Assets.ProcessAssets | AssetLoader/Assets.cpp:14-84 | the result and new file system are those of running every asset in order until one fails |
| Assets.UpToDateSkipped | AssetLoader/Assets.cpp:46-50 | an up-to-date asset changes nothing and the loop goes on |
| Assets.AllUpToDateChangesNothing | AssetLoader/Assets.cpp:31-84 | when every asset is up to date the run succeeds and changes nothing |
| Assets.SkippedRunChangesNothing | AssetLoader/Assets.cpp:31-84 | turns that change nothing leave the loop's result true and the file system as it was |
| Assets.FailureIgnoresLaterAssets | AssetLoader/Assets.cpp:40-44 | after a failing turn, assets later in the list are never looked at |
| Assets.BuiltModelIsUpToDate | AssetLoader/Assets.cpp:52-78 | a model whose turn succeeds is up to date afterwards |
| Assets.TextureStaysStale | AssetLoader/Assets.cpp:69-78 | a texture is never built, so one with no output still needs a build after its turn, even when the turn succeeds and its time file exists |
| AssetLoaderMain.Root | AssetLoader/Main.cpp:49-53 | a standardised root has no backslash, is empty exactly when the input is, ends in `/` otherwise, and differs from the input only by slashes and one appended `/` |
| AssetLoaderMain.RootIdempotent | AssetLoader/Main.cpp:49-53 | standardising twice equals standardising once |
| AssetLoaderMain.StandardizeRoot | AssetLoader/Main.cpp:50-53 | the in-place normalise and suffix give the standardised root |
| AssetLoaderMain.MainSpec | AssetLoader/Main.cpp:12-61 | definition of `wmain`; `ExitCodes` and `ProcessResultIgnored` state what it does |
| AssetLoaderMain.WMain | AssetLoader/Main.cpp:12-61 | the exit code and new file system are those of COM start-up, the override check, the config read and the asset run, in that order |
| AssetLoaderMain.ExitCodes | AssetLoader/Main.cpp:12-61 | the code is -1, -2, -3 or 0, each exactly for its cause; a nonzero code leaves the file system alone |
| AssetLoaderMain.ProcessResultIgnored | AssetLoader/Main.cpp:56-60 | a run that stops at a failing asset still exits 0, keeping what it wrote |
| Config.LineStop | AssetLoader/Main.cpp:100-103 | the scan stops at the first `\n` or `\r` from the line start, or at the end of the buffer |
| Config.SkipGaps | AssetLoader/Main.cpp:127-131 | the skip passes only `\n`, `\r` and spaces and stops at the first other character |
| Config.ConfigLine | AssetLoader/Main.cpp:109-124 | definition of one config line, trimmed then matched; `ConfigLineByKind` states what it does |
| Config.Directive | AssetLoader/Main.cpp:113-124 | definition of the directive match on the trimmed line; `ConfigLineByKind` states what it does |
| Config.ConfigLines | AssetLoader/Main.cpp:96-132 | definition of the lines the loop hands to the match; `ConfigLinesStep`, `ConfigLinesHaveNoBreaks` and `ConfigLinesWithin` state what they are |
| Config.ConfigFrom | AssetLoader/Main.cpp:96-132 | definition of the loop of `ReadConfig`; `ConfigFromContents` states what it does |
| Config.ReadConfigSpec | AssetLoader/Main.cpp:63-135 | definition of `ReadConfig`: none when the file cannot be opened; the `ReadConfig` method is proved against it |
| Config.ApplyLinesCons | AssetLoader/Main.cpp:96-132 | the lines are applied first to last |
| Config.ConfigFromStep | AssetLoader/Main.cpp:96-132 | one turn of the loop: the line up to its stop, then the rest from past the gap |
| Config.ConfigLinesStep | AssetLoader/Main.cpp:96-132 | the line list from a start is that line's C string followed by the lines after the gap |
| Config.ConfigLineInBuffer | AssetLoader/Main.cpp:109-124 | the trims and the directive match on the buffer act as on the line's C string; nothing outside the line is written |
| Config.TrimLineInBuffer | AssetLoader/Main.cpp:109-110 | the line after both trims, with writes only inside the line; the trailing trim is also called on a line left empty, except at the buffer start |
| Config.TrimTailInBuffer | AssetLoader/Main.cpp:110 | the trailing trim leaves the trimmed C string at the start, with writes only inside the line |
| Config.DirectiveOf | AssetLoader/Main.cpp:113-124 | the match sets a root or appends a model exactly as the directive definition does |
| Config.LeadingTrimInBuffer | AssetLoader/Main.cpp:109-110 | the `char*` the leading trim returns sees the trimmed line, and the trailing terminator falls inside the line |
| Config.FindLineStop | AssetLoader/Main.cpp:100-103 | the scan over the buffer finds the line's stop |
| Config.SkipGapsIn | AssetLoader/Main.cpp:127-131 | the skip over the buffer finds the next line's start |
| Config.ConfigLineAt | AssetLoader/Main.cpp:98-131 | one pass of the loop advances and keeps the rest of the file's result, leaving the unread buffer unchanged |
| Config.TerminatedBuffer | AssetLoader/Main.cpp:77-90 | the buffer holds the file followed by one NUL |
| Config.ReadConfig | AssetLoader/Main.cpp:63-135 | fails exactly when the file cannot be opened, leaving the out-parameters alone; otherwise they are the state after every line |
| Config.LeadingBlankIgnored | AssetLoader/Main.cpp:109 | a blank before a line does not change what it does |
| Config.TrimLeadingPrepend | AssetLoader/StringHelpers.h:5-13 | a leading blank is removed by the leading trim |
| Config.TrailingBlankIgnored | AssetLoader/Main.cpp:110 | a blank after a line does not change what it does |
| Config.TrimmedAppendBlank | AssetLoader/Main.cpp:109-110 | both trims together remove an appended blank |
| Config.TrimLeadingAppend | AssetLoader/StringHelpers.h:5-13 | an appended blank survives the leading trim unless nothing else is left |
| Config.CommentLineIgnored | AssetLoader/Main.cpp:113-124 | a line starting (after trimming) with `#` or any non-letter changes nothing |
| Config.AppendsModelsTransitive | AssetLoader/Main.cpp:123 | appending models twice is appending models |
| Config.ConfigLineAppends | AssetLoader/Main.cpp:121-124 | one line adds at most one asset, a model whose path has no backslash, and keeps the others |
| Config.ApplyLinesAppendsModels | AssetLoader/Main.cpp:96-132 | the lines only append models with backslash-free paths, at most one per line (which ones: `Config.ApplyLinesModels`) |
| Config.ConfigFromAppendsModels | AssetLoader/Main.cpp:96-132 | reading a config only appends models with backslash-free paths (which ones, and the roots: `Config.ConfigFromContents`) |
| Config.ConfigLineKeepsRoots | AssetLoader/Main.cpp:113-120 | a line without `:` changes neither root |
| Config.ApplyLinesKeepsRoots | AssetLoader/Main.cpp:113-120 | lines without `:` change neither root |
| Config.ConfigLineByKind | AssetLoader/Main.cpp:109-124 | a `SourceRoot:` or `OutputRoot:` line (matched in that order, case-insensitively) sets that root to the trimmed text from column 12; a `Model:` line appends one model with the text from column 7; any other line changes nothing |
| Config.ApplyLinesSnoc | AssetLoader/Main.cpp:96-132 | one more line after the others is one more line step on the state they leave |
| Config.ApplyLinesRoots | AssetLoader/Main.cpp:113-120 | each root is the value of the last line that sets it, or the initial root when no line does |
| Config.ApplyLinesModels | AssetLoader/Main.cpp:121-124 | the model list is the initial one followed by one model per `Model:` line, in file order |
| Config.ConfigFromContents | AssetLoader/Main.cpp:96-132 | reading a config sets each root from its last root line and appends one model per `Model:` line, in file order; nothing else changes |
| Config.LaterSourceRootWins | AssetLoader/Main.cpp:113-116 | of two `SourceRoot:` lines the later one decides the root |
| Config.FirstLineFrom | AssetLoader/Main.cpp:98-107 | the line starting at a position is the file's characters from there on, none of them a line break |
| Config.ConfigLinesWithin | AssetLoader/Main.cpp:98-107 | a character that does not occur in the file from `p` on occurs in no line handed to the match |
| Config.FirstLineAvoids | AssetLoader/Main.cpp:98-107 | the first line contains a character only when the file does from that line on |
| Config.ConfigLinesConsAvoid | AssetLoader/Main.cpp:98-132 | no line from a start contains the character when the first line and the later lines do not |
| Config.RootsKeptWithoutDirective | AssetLoader/Main.cpp:113-120 | a file without `:` keeps both roots |
| Config.ConfigLinesHaveNoBreaks | AssetLoader/Main.cpp:98-107 | no line handed to the match holds a line break or a NUL |
| Config.FirstLineNoBreaks | AssetLoader/Main.cpp:98-107 | the first line holds no line break and no NUL |
| Config.ConfigLinesConsNoBreaks | AssetLoader/Main.cpp:98-132 | no line from a start breaks when the first line and the later lines do not |
| FileSystem.ParentOf | AssetLoader/Assets.cpp:102-103 | the directory part is the prefix before the last `/`, or empty |
| FileSystem.TextOf | AssetLoader/ObjModel.cpp:27-36 | the bytes read into a `char` buffer, one character per byte |
| FileSystem.TextFiles | AssetLoader/ObjModel.cpp:16-22 | a name opens as a text file exactly when it is a plain-bytes file of the file system |
| FileSystem.EncodeLE | AssetLoader/Assets.cpp:224 | a value written as `width` little-endian bytes takes exactly `width` bytes |
| FileSystem.Pow256 | AssetLoader/Assets.cpp:224 | the range of a `width`-byte field is positive |
| FileSystem.DecodeEncode | AssetLoader/Assets.cpp:136-142 | reading back what was written gives the value, whatever follows it |
| FileSystem.EncodeFileTime | AssetLoader/Assets.cpp:223-224 | a `FILETIME` takes eight bytes |
| FileSystem.Pow256Eight | AssetLoader/Assets.cpp:130 | eight bytes hold exactly the 64-bit range, four the 32-bit range |
| FileSystem.FileTimeRoundTrip | AssetLoader/Assets.cpp:136-142 | a `.time` file read back yields the time written |
| FileSystem.FirstEight | AssetLoader/Assets.cpp:138 | `ReadFile` of a `FILETIME` gets the first eight bytes |
| FileSystem.FileSystem.constructor | AssetLoader/Assets.cpp:86-231 | the file system starts with the given entries and clock |
| FileSystem.FileSystem.CreateDirectory | AssetLoader/Assets.cpp:103 | success for an existing path, else a new directory when its parent exists |
| FileSystem.FileSystem.CreateEmpty | AssetLoader/Assets.cpp:200-201 | `CREATE_ALWAYS` succeeds exactly when allowed and leaves an empty file |
| FileSystem.FileSystem.AppendBytes | AssetLoader/Assets.cpp:224 | `WriteFile` appends the bytes and stamps the file |
| FileSystem.FileSystem.WriteHeader | AssetLoader/Model.cpp:44 | the header becomes the empty model file's first record |
| FileSystem.FileSystem.AppendRecord | AssetLoader/Model.cpp:60 | one more record is appended to the model file |
| ModelFormat.RecordSizes | AssetLoader/AssetLoader.h:7-43 | under the packing pragmas a vertex is 32 bytes, the header 8, an object record 132 and a part record 516; `'MODL'` is 0x4D4F444C and fits 32 bits |
| ModelFormat.RecordSize | AssetLoader/Model.cpp:54-142 | an object record is 132 bytes, a part record 516, a vertex block 32 per vertex |
| ModelFormat.BodySizeAppend | AssetLoader/Model.cpp:50-144 | the byte length of records written one after another adds up |
| ModelWriter.FindDiffuseTexture | AssetLoader/Model.cpp:8-26 | the forward search returns the diffuse map of the first material with the name |
| ModelWriter.DiffuseTextureFirstMatch | AssetLoader/Model.cpp:12-23 | with no earlier match, no material means empty, and the first match decides: its diffuse map or empty, whatever later materials hold |
| ModelWriter.Flattened | AssetLoader/Model.cpp:123-136 | the flat-normal pass keeps the vertex count |
| ModelWriter.BaseVerticesUpToContents | AssetLoader/Model.cpp:96-121 | the first loop is defined exactly when every element it reads exists, and gives one vertex per position index, each holding just what the lists reach |
| ModelWriter.BaseVertices | AssetLoader/Model.cpp:93-121 | the loop over the position indices builds exactly that vector |
| ModelWriter.BaseVerticesUndefined | AssetLoader/Model.cpp:100 | once an index is out of range the whole loop is undefined |
| ModelWriter.FlattenNormals | AssetLoader/Model.cpp:123-136 | the in-place pass gives the triples starting below `size - 3` their flat normal and leaves the rest |
| ModelWriter.TripleStarts | AssetLoader/Model.cpp:126 | the loop's step of 3 visits each triple at its first vertex |
| ModelWriter.TripleStartBelow | AssetLoader/Model.cpp:126 | a vertex lies below a multiple of 3 exactly when its triple starts below it |
| ModelWriter.BuildVertices | AssetLoader/Model.cpp:93-136 | both passes give the vertices written for the part |
| ModelWriter.PartVerticesContents | AssetLoader/Model.cpp:93-136 | the part's vertices are defined exactly when every element read exists; there is one per position index and each is written as the two passes say |
| ModelWriter.LastTripleUnflattened | AssetLoader/Model.cpp:126 | in a part without normals the last triple keeps no normal, so a three-vertex part gets none |
| ModelWriter.WrittenVerticesSize | AssetLoader/Model.cpp:138 | the `DWORD` byte count wraps: `(32 · n) mod 2^32` bytes are written, all of them below 2^27 vertices |
| ModelWriter.WrittenVertices | AssetLoader/Model.cpp:138 | definition of the vertices one `WriteFile` writes, its `DWORD` byte count wrapping; `WrittenVerticesSize` states how many |
| ModelWriter.PartRecordsOf | AssetLoader/Model.cpp:70-142 | definition of the records of one part; `PartRecordsContents` and `PartBytes` state what they are |
| ModelWriter.ObjectRecordsOf | AssetLoader/Model.cpp:52-143 | definition of the records of one object; `ObjectBytes` states their size |
| ModelWriter.SaveSpec | AssetLoader/Model.cpp:28-147 | definition of `SaveModel`; `SavedModelLayout` states the file it leaves |
| ModelWriter.RunStep | AssetLoader/Model.cpp:50-144 | after a full run, one more piece adds its result and records |
| ModelWriter.RunLast | AssetLoader/Model.cpp:50-144 | a run written in full is the previous run in full followed by its last piece in full |
| ModelWriter.RunUndefined | AssetLoader/Model.cpp:50-144 | once a run is undefined it stays undefined |
| ModelWriter.RunStops | AssetLoader/Model.cpp:60-64 | once a piece has failed, later pieces add nothing |
| ModelWriter.PartOutcomes | AssetLoader/Model.cpp:66-143 | one outcome per part |
| ModelWriter.ObjectOutcomes | AssetLoader/Model.cpp:50-144 | one outcome per object |
| ModelWriter.WritePart | AssetLoader/Model.cpp:68-142 | writing one part gives its outcome and appends exactly its records to the file |
| ModelWriter.WriteParts | AssetLoader/Model.cpp:66-143 | writing the parts in order appends the run of their records, stopping at the first failure |
| ModelWriter.WriteObject | AssetLoader/Model.cpp:52-143 | writing one object gives its outcome and appends exactly its records |
| ModelWriter.WriteObjects | AssetLoader/Model.cpp:50-144 | writing the objects in order after the header appends the run of their records |
| ModelWriter.SaveModel | AssetLoader/Model.cpp:28-147 | its result and new file system are those of creating the file, writing the header and then the objects until the first failure |
| ModelWriter.PartRecordsContents | AssetLoader/Model.cpp:70-138 | a part in full is its record, with the vertex count and the copied texture name, followed by exactly that many vertices |
| ModelWriter.PartsSize | AssetLoader/Model.cpp:66-143 | the parts written in full take their records and 32 bytes per vertex |
| ModelWriter.PartBytes | AssetLoader/Model.cpp:87-142 | a part in full takes 516 bytes plus 32 per vertex |
| ModelWriter.ObjectsSize | AssetLoader/Model.cpp:50-144 | the objects written in full take their records and their parts' bytes |
| ModelWriter.ObjectBytes | AssetLoader/Model.cpp:52-143 | an object in full takes 132 bytes plus its parts' bytes |
| ModelWriter.SavedModelLayout | AssetLoader/Model.cpp:28-147 | a model saved in full is one file at the output path, with the expected signature and the object count in its header, of length 8 + Σ(132 + Σ(516 + 32 · vertices)); nothing else changes |
| ObjScene.TextureTypeValue | AssetLoader/ObjModel.h:7-16 | each of the seven texture slots has a value below 7 |
| ObjScene.TextureTypeValuesDistinct | AssetLoader/ObjModel.h:7-16 | the slots' values are distinct, so the texture map has one entry per slot |
| ObjScene.PositionTexKeyInjective | AssetLoader/ObjModel.cpp:249 | for 32-bit texcoords the 64-bit key `(position << 32) | texcoord` determines both indices |
| ObjScene.Lookup | AssetLoader/ObjModel.cpp:250-259 | the two `find` calls succeed exactly when both keys are present, and return the stored slot |
| ObjScene.Record | AssetLoader/ObjModel.cpp:282-290 | after recording, a lookup of the corner finds the new slot; other keys are untouched; an existing inner map gets one entry, a new one holds just that normal |
| ObjScene.WeldInvEmpty | AssetLoader/ObjModel.h:40-56 | an empty model satisfies the weld invariant |
| ObjScene.LookupFindsSlot | AssetLoader/ObjModel.cpp:250-259 | under the weld invariant a lookup succeeds exactly for a triple already welded, and finds its slot |
| ObjScene.WeldInvNoDuplicates | AssetLoader/ObjModel.cpp:245-291 | under the weld invariant no two vertices share an index triple |
| ObjScene.WeldCornerSpec | AssetLoader/ObjModel.cpp:245-294 | welding a corner keeps the invariant; a known triple pushes its slot and adds no vertex; a new one adds one vertex and pushes its slot; nothing else changes |
| ObjScene.WeldCorner | AssetLoader/ObjModel.cpp:245-291 | definition of welding one corner: look the triple up in the two-level map and push its slot, or read the normal and texcoord it names, append the vertex, push and record the new slot; `WeldCornerSpec` states what it does |
| ObjScene.PartsTileDisjoint | AssetLoader/ObjModel.cpp:139-143 | index ranges that tile the index list are disjoint and in creation order |
| ObjScene.AllPartsOfEmptyTail | AssetLoader/ObjModel.cpp:127-143 | objects without parts add none to the list of all parts |
| ObjScene.AllPartsPrefix | AssetLoader/ObjModel.cpp:127-143 | the parts of a prefix up to an object are the earlier parts followed by that object's |
| ObjScene.AllPartsReplaceLast | AssetLoader/ObjModel.cpp:139-143 | changing the last object that holds parts changes only the tail of the list of all parts |
| ObjLines.LineEnd | AssetLoader/ObjModel.cpp:52-58 | the scan stops at the first `\n` or `\r`, or at the last byte of the buffer |
| ObjLines.LineEndIsFirstStop | AssetLoader/ObjModel.cpp:53-56 | only that first stop satisfies the scan's exit condition |
| ObjLines.SkipNewlines | AssetLoader/ObjModel.cpp:158-163 | the skip passes only `\n` and `\r` and stops at the first other character or the end |
| ObjLines.LastIndexOf | AssetLoader/ObjModel.cpp:68-69 | `wcsrchr` finds the last occurrence, or reports that there is none |
| ObjLines.DirPrefix | AssetLoader/ObjModel.cpp:65-82 | the directory is a prefix of the name ending at a separator (or empty), with no separator after it |
| ObjLines.DirPrefixWithoutSeparator | AssetLoader/ObjModel.cpp:68-74 | a name without a separator has no directory |
| ObjLines.DirPrefixLaterSlash | AssetLoader/ObjModel.cpp:68-74 | a `/` after the last `\` ends the directory |
| ObjLines.DirPrefixLaterBackslash | AssetLoader/ObjModel.cpp:68-74 | a `\` after the last `/` ends the directory |
| ObjLines.DirPrefixIdempotent | AssetLoader/ObjModel.cpp:65-82 | the directory of a directory is itself |
| ObjFace.ReadCorner | AssetLoader/ObjModel.cpp:203-219 | the fields of a numeric token fill position, texcoord and normal in order, each truncated to 32 bits; a field not supplied keeps the previous corner's value |
| ObjFace.MergeFirst | AssetLoader/ObjModel.cpp:221-223 | the first corner is taken field by field from the first corner that supplies it, staying within 32 bits |
| ObjFace.CornerStep | AssetLoader/ObjModel.cpp:247-293 | definition of one pass of the corner loop, weld then count in the part; `CornerStepCounts` and `CornerStepKeepsInv` state what it does |
| ObjFace.Triangle | AssetLoader/ObjModel.cpp:225-295 | definition of one triangle: the three positions are read first, then the three corners welded; `TriangleKeepsInv` states what it keeps |
| ObjFace.FaceToken | AssetLoader/ObjModel.cpp:201-300 | definition of one token of the face loop: non-numeric tokens skipped, a triangle from the third corner on; `FaceTokenCounts` and `ObjFan.NumericTokenFan` state what it does |
| ObjFace.FaceFrom | AssetLoader/ObjModel.cpp:199-304 | definition of the token loop of a face; `FaceFromCounts` and `ObjFan.FaceFromFan` state what it does |
| ObjFace.FaceSpec | AssetLoader/ObjModel.cpp:190-305 | definition of `ReadFace` over the space-separated tokens; `FaceSpecCounts`, `ObjFan.FaceSpecFan` and `FaceSpecKeepsInv` state what it does |
| ObjFace.NumericCount | AssetLoader/ObjModel.cpp:201 | at most one numeric corner per token |
| ObjFace.GrowsTrans | AssetLoader/ObjModel.cpp:245-294 | growth by `a` then by `b` indices is growth by `a + b` |
| ObjFace.GrowsRefl | AssetLoader/ObjModel.cpp:245-294 | staying put is growth by zero |
| ObjFace.CornerStepCounts | AssetLoader/ObjModel.cpp:247-293 | one corner appends exactly one index and counts it in the current part |
| ObjFace.CornersFromCounts | AssetLoader/ObjModel.cpp:245-294 | a triangle's corners append one index each, in order |
| ObjFace.FaceTokenCounts | AssetLoader/ObjModel.cpp:199-303 | a token adds three indices when it is the third or later numeric corner, and none otherwise |
| ObjFace.FaceFromCounts | AssetLoader/ObjModel.cpp:199-304 | N numeric corners add 3(N - 2) indices after the old ones, each counted in the part; with no triangle nothing changes (which corners the indices name: `ObjFan.FaceSpecFan`) |
| ObjFace.FaceSpecCounts | AssetLoader/ObjModel.cpp:190-305 | a face line with N numeric corners adds 3(N - 2) indices, counted in the part, when N is at least 3, and changes nothing otherwise (which corners the indices name: `ObjFan.FaceSpecFan`) |
| ObjFace.PartsTileBumpLast | AssetLoader/ObjModel.cpp:293 | counting one more index in the last part keeps the tiling one index longer |
| ObjFace.BumpPartKeepsTiling | AssetLoader/ObjModel.cpp:293 | `++part->NumIndices` after a push restores the tiling and keeps the cursors valid |
| ObjFace.CornerStepKeepsInv | AssetLoader/ObjModel.cpp:247-293 | one corner keeps the importer's invariant |
| ObjFace.CornersFromKeepsInv | AssetLoader/ObjModel.cpp:245-294 | a triangle keeps it |
| ObjFace.TriangleKeepsInv | AssetLoader/ObjModel.cpp:225-295 | a triangle of 32-bit corners keeps the importer's invariant |
| ObjFace.FaceTokenKeepsInv | AssetLoader/ObjModel.cpp:199-303 | a token keeps it, and the face locals stay within 32 bits |
| ObjFace.FaceFromKeepsInv | AssetLoader/ObjModel.cpp:199-304 | the tokens of a face keep it |
| ObjFace.FaceSpecKeepsInv | AssetLoader/ObjModel.cpp:190-305 | reading a face keeps the weld invariant, the tiling of the index list by the parts and the cursors |
| ObjFace.AtollOfDigit | AssetLoader/ObjModel.cpp:207 | `atoll` of one digit is its value |
| ObjFace.ReadCornerCarriesOver | AssetLoader/ObjModel.cpp:205-219 | token `7` sets only the position; texcoord and normal carry over |
| ObjFace.TokensOfOneSlashSlashThree | AssetLoader/ObjModel.cpp:204 | `strtok_s` splits `1//3` into `1` and `3` |
| ObjFace.ReadCornerCollapsesEmptyField | AssetLoader/ObjModel.cpp:204-219 | token `1//3` puts 3 in the texcoord slot, the normal carrying over |
| ObjFace.NonNumericTokenIgnored | AssetLoader/ObjModel.cpp:201 | a token not starting with a digit changes nothing |
| ObjFan.Fan | AssetLoader/ObjModel.cpp:199-304 | reference definition of the face's triangles, independent of the token loop: for each corner k from the third on, the first corner as merged up to k, corner k - 1 and corner k |
| ObjFan.FanLength | AssetLoader/ObjModel.cpp:225-295 | a fan over N corners has 3(N - 2) corners when N is at least 3, none otherwise |
| ObjFan.FanAt | AssetLoader/ObjModel.cpp:225-295 | the three fan entries from 3(k - 2) on are the merged first corner, corner k - 1 and corner k |
| ObjFan.CornersCount | AssetLoader/ObjModel.cpp:201 | one corner per numeric token |
| ObjFan.MergedFirstComplete | AssetLoader/ObjModel.cpp:221-223 | a first corner with position, texcoord and normal all set stays the first corner |
| ObjFan.QuadFan | AssetLoader/ObjModel.cpp:199-304 | a quad a, b, c, d with a complete first corner is the triangles (a, b, c) and (a, c, d) |
| ObjFan.CornersFromAppend | AssetLoader/ObjModel.cpp:245-294 | welding the corners of `a` and then those of `b` is welding those of `a + b` |
| ObjFan.NumericTokenFan | AssetLoader/ObjModel.cpp:201-300 | a numeric token moves the face locals to those after one more corner and welds exactly the triangle the fan gains |
| ObjFan.FaceFromFan | AssetLoader/ObjModel.cpp:199-304 | after a run of corners, the rest of the token loop welds exactly the part of the whole fan that the later corners add |
| ObjFan.FaceSpecIsFan | AssetLoader/ObjModel.cpp:190-305 | a defined face welds, in order, exactly the corners of the fan over its numeric tokens |
| ObjFan.CornerStepWelds | AssetLoader/ObjModel.cpp:245-293 | one corner keeps the weld invariant and the old vertices and indices, and adds one index naming a vertex equal to the corner |
| ObjFan.WeldCornerWelds | AssetLoader/ObjModel.cpp:245-291 | welding one corner, found or new, pushes an index naming a vertex equal to it and keeps everything before |
| ObjFan.CornersFromWelds | AssetLoader/ObjModel.cpp:245-294 | welding a list of corners leaves the old vertices and indices and adds one index per corner, in order, each naming a vertex equal to its corner |
| ObjFan.FaceSpecFan | AssetLoader/ObjModel.cpp:190-305 | a face keeps the old vertices and indices, and the indices it adds name, in order, vertices equal to the corners of the fan over its numeric tokens |
| ObjFan.WeldedFanAt | AssetLoader/ObjModel.cpp:225-295 | for every corner k from the third on, the three indices from 3(k - 2) past the old ones name the merged first corner, corner k - 1 and corner k |
| ObjMtl.StartsWithKeywordChars | AssetLoader/ObjModel.cpp:461-502 | a line that starts with a keyword holds each of its characters, equal up to case |
| ObjMtl.PropertyOf | AssetLoader/ObjModel.cpp:402-518 | definition of the directive match: the first character exactly, the rest of the keyword up to case; `TextureDirectiveRecognised` and `TextureDirectiveOnlyFromKeyword` state which lines set which slot |
| ObjMtl.MtlLine | AssetLoader/ObjModel.cpp:364-523 | definition of one material line; `NewmtlAppends`, `TextureLineStores`, `PropertyWithoutMaterialUndefined` and `MtlLineKeepsPrefix` state what it does |
| ObjMtl.MtlFrom | AssetLoader/ObjModel.cpp:362-524 | definition of the material line loop; `MtlFromKeepsPrefix` states what it keeps |
| ObjMtl.LoadMaterialsSpec | AssetLoader/ObjModel.cpp:307-529 | definition of `LoadMaterials`, with the 1024-character `basePath` limit; `LoadMaterialsKeepsEarlier` states what it does |
| ObjMtl.TextureDirectiveRecognised | AssetLoader/ObjModel.cpp:461-506 | a line starting with `disp`, `bump`, `map_Ka`, `map_Kd`, `map_Ks`, `map_Ns`, `map_d` or `map_bump` fills that keyword's slot with the path one character after the keyword |
| ObjMtl.MapColourDirectiveRecognised | AssetLoader/ObjModel.cpp:476-499 | a line starting with `map_Ka`, `map_Kd`, `map_Ks` or `map_Ns` fills that slot with the path after seven characters |
| ObjMtl.MapOtherDirectiveRecognised | AssetLoader/ObjModel.cpp:476-506 | a line starting with `map_d` or `map_bump` fills that slot with the path one character after the keyword |
| ObjMtl.TextureDirectiveOnlyFromKeyword | AssetLoader/ObjModel.cpp:456-506 | conversely, a slot is set only by a line starting with one of those keywords |
| ObjMtl.CapitalFirstIgnored | AssetLoader/ObjModel.cpp:402-518 | the first character is matched exactly: a capital other than `K`, `N` or `T` sets nothing |
| ObjMtl.SkipNonAlnum | AssetLoader/ObjModel.cpp:396-399 | the skip passes only non-alphanumeric characters and stops at the first alphanumeric one or the terminator |
| ObjMtl.NewmtlAppends | AssetLoader/ObjModel.cpp:379-390 | `newmtl` appends one material named from column 7 with no texture and makes it current |
| ObjMtl.TextureLineStores | AssetLoader/ObjModel.cpp:461-506 | a texture line is defined exactly when the directory plus the rest of the line fits the 1024-character `path` buffer; then it stores that path in the slot of the current material, replacing an earlier value, and everything else stays |
| ObjMtl.PropertyWithoutMaterialUndefined | AssetLoader/ObjModel.cpp:404-506 | a property line before any `newmtl` dereferences the null material: undefined |
| ObjMtl.MtlLineKeepsPrefix | AssetLoader/ObjModel.cpp:364-523 | one line changes no material before the current one |
| ObjMtl.MtlFromKeepsPrefix | AssetLoader/ObjModel.cpp:362-524 | the line loop changes no material before the current one |
| ObjMtl.LoadMaterialsKeepsEarlier | AssetLoader/ObjModel.cpp:307-529 | false exactly when the file cannot be opened; otherwise (a name past the 1024-character `basePath` buffer being undefined) the materials of earlier files are kept as they were |
| ObjLoad.ObjectLineAppends | AssetLoader/ObjModel.cpp:124-133 | an `o` or `g` line appends one object named from column 2, with no part, and makes it current; nothing else changes |
| ObjLoad.NewObject | AssetLoader/ObjModel.cpp:127-132 | definition of the scene after an `o`/`g` line; `ObjectLineAppends` and `NewObjectKeepsInv` state what it does |
| ObjLoad.NewPart | AssetLoader/ObjModel.cpp:139-143 | definition of the scene after a `usemtl` line; `UsemtlLineAppendsPart` and `NewPartKeepsInv` state what it does |
| ObjLoad.ObjLine | AssetLoader/ObjModel.cpp:60-156 | definition of one OBJ line, with the 1024-character path buffers of `mtllib`; `ObjLineKeepsInv`, `ObjLineDataOnly` and the line lemmas above state what it does |
| ObjLoad.LoadFrom | AssetLoader/ObjModel.cpp:49-164 | definition of the line loop; `LoadFromKeepsInv` and `LoadTurn` state what it does |
| ObjLoad.LoadSpec | AssetLoader/ObjModel.cpp:14-167 | definition of `Load`; `MissingFileFails` and `LoadSpecWellFormed` state what it does |
| ObjLoad.UsemtlLineAppendsPart | AssetLoader/ObjModel.cpp:135-144 | `usemtl` appends a part to the current object, with the material from column 7, starting at the end of the index list and holding no index; with no object it is undefined |
| ObjLoad.VertexDataLineAppends | AssetLoader/ObjModel.cpp:99-118 | `v `, `vt` and `vn` lines append one element to their list |
| ObjLoad.MissingMaterialFileAborts | AssetLoader/ObjModel.cpp:62-92 | a material file that cannot be opened makes `Load` return false at once, provided the OBJ path and the material path fit their 1024-character buffers |
| ObjLoad.LongMaterialPathUndefined | AssetLoader/ObjModel.cpp:62-92 | an `mtllib` line is undefined exactly when the OBJ path or the material path overflows its 1024-character buffer or the material file's own reading is undefined |
| ObjLoad.MissingFileFails | AssetLoader/ObjModel.cpp:16-22 | an OBJ file that cannot be opened gives false and changes nothing |
| ObjLoad.NewObjectKeepsInv | AssetLoader/ObjModel.cpp:127-132 | a new object keeps the importer's invariant |
| ObjLoad.NewPartKeepsInv | AssetLoader/ObjModel.cpp:139-143 | a new part keeps it, becoming the last part |
| ObjLoad.SceneInvIgnoresData | AssetLoader/ObjModel.h:40-56 | the invariant depends only on vertices, indices, weld map and objects |
| ObjLoad.ObjLineDataOnly | AssetLoader/ObjModel.cpp:60-156 | other lines leave vertices, indices, weld map, objects and cursors alone |
| ObjLoad.ObjLineKeepsInv | AssetLoader/ObjModel.cpp:60-156 | every line keeps the importer's invariant |
| ObjLoad.LoadFromKeepsInv | AssetLoader/ObjModel.cpp:49-164 | the line loop keeps it |
| ObjLoad.LoadTurn | AssetLoader/ObjModel.cpp:49-164 | a dispatched line ends the loop with the line's result or leaves the loop's outcome unchanged from the next line on |
| ObjLoad.LoadSpecWellFormed | AssetLoader/ObjModel.cpp:14-167 | a defined load into an empty model leaves every index naming a vertex, no two vertices with the same triple, and the parts tiling the index list, whether it returns true or false |
| ObjModelClass.ObjModel.constructor | AssetLoader/ObjModel.h:40-63 | a new model has every list and the weld map empty |
| ObjModelClass.ObjModel.ReadPositionAndColor | AssetLoader/ObjModel.cpp:169-174 | one more position and nothing else changes |
| ObjModelClass.ObjModel.ReadTexCoord | AssetLoader/ObjModel.cpp:176-181 | one more texture coordinate and nothing else changes |
| ObjModelClass.ObjModel.ReadNormal | AssetLoader/ObjModel.cpp:183-188 | one more normal and nothing else changes |
| ObjModelClass.ObjModel.AddCorner | AssetLoader/ObjModel.cpp:247-293 | the fields after one corner are the welded and counted state, defined exactly when the corner step is |
| ObjModelClass.ObjModel.AddTriangle | AssetLoader/ObjModel.cpp:225-295 | three positions read, then three corners welded in order |
| ObjModelClass.ObjModel.FaceTokenStep | AssetLoader/ObjModel.cpp:201-300 | one token of the face loop updates the fields and the face locals as the token step defines |
| ObjModelClass.ObjModel.ReadFace | AssetLoader/ObjModel.cpp:190-305 | the face loop leaves the fields in the state the face definition gives, defined exactly when it is |
| ObjModelClass.ObjModel.MaterialLine | AssetLoader/ObjModel.cpp:373-520 | one material line updates the material list and current material as defined, keeping the current material valid and every other field |
| ObjModelClass.ObjModel.LoadMaterials | AssetLoader/ObjModel.cpp:307-529 | the material list after a load is the one the material definition gives; false keeps it; nothing else changes |
| ObjModelClass.ObjModel.MaterialTurn | AssetLoader/ObjModel.cpp:362-524 | one line of the material loop: undefined exactly when the whole loop is, otherwise the loop's outcome from one byte past the line end is unchanged |
| ObjModelClass.ObjModel.DispatchLine | AssetLoader/ObjModel.cpp:60-156 | one line updates the fields and cursors, or aborts, as the line definition says |
| ObjModelClass.ObjModel.Load | AssetLoader/ObjModel.cpp:14-167 | the result and fields after `Load` are those of the line loop over the file, false when it cannot be opened |
| ObjModelClass.ObjModel.LoadLine | AssetLoader/ObjModel.cpp:49-163 | one line of the loop: it ends the loop with the line's result or leaves the outcome from the next line unchanged |
| ObjModelClass.FindLineEnd | AssetLoader/ObjModel.cpp:52-56 | the line ends at its first line break, or at the last byte of the file |
| ObjModelClass.SkipLineBreaks | AssetLoader/ObjModel.cpp:159-163 | the next line starts after the run of line breaks that follows |
| Geometry.VertexTypeValue | Experiments/Geometry.h:4-8 | every real vertex layout indexes inside the stride table |
| Geometry.VertexStride | Experiments/Geometry.cpp:5-8 | the one layout's stride is the size of a standard vertex, 56 bytes |
| Geometry.ReserveAsWritten | Experiments/Geometry.cpp:73-89 | definition of the method as written: the room test and the new counters are 32-bit sums that wrap; `ReserveAsWrittenWithoutWrap` and `ReserveAsWrittenOverruns` state what it does |
| Geometry.Reserve | Experiments/Geometry.cpp:73-89 | a range is reserved exactly when both requested counts fit in the room that is left |
| Geometry.ReserveAsWrittenWithoutWrap | Experiments/Geometry.cpp:75-76 | while neither 32-bit sum wraps, the room test as written agrees with the intended one |
| Geometry.ReserveAsWrittenOverruns | Experiments/Geometry.cpp:75-86 | a request that wraps the 32-bit sum is granted a range past the capacity and resets the counter |
| Geometry.ReserveWithinCapacity | Experiments/Geometry.cpp:82-86 | a granted range starts at the old counters, ends inside the capacity, and the counters grow by exactly the request |
| Geometry.SuccessiveRangesAdjacent | Experiments/Geometry.cpp:73-89 | two grants in a row give adjacent, non-overlapping ranges |
| Geometry.GeometryPool.constructor | Experiments/Geometry.cpp:43-50 | a new pool has its type and all four counters zero |
| Geometry.GeometryPool.Initialize | Experiments/Geometry.cpp:52-71 | succeeds exactly when both buffers are created; each capacity is set only after its buffer; counts unchanged |
| Geometry.GeometryPool.Create | Experiments/Geometry.cpp:30-41 | a fresh pool with the requested capacities and zero counts exactly when both buffers are created |
| Geometry.GeometryPool.ReserveRange | Experiments/Geometry.cpp:73-89 | implements the corrected room test of `Reserve`, not the wrapping test of lines 75-76: a refusal changes nothing; a grant returns the old counters and advances them as `Reserve` does; the pool stays within capacity |
| Geometry.GeometryPool.GetEstVRAMBytes | Experiments/Geometry.h:39-44 | the 64-bit estimate never wraps and equals stride times vertex capacity plus four bytes per index |
| TextureLoading.LoopCount | Experiments/ContentLoader.cpp:243 | the mip loop never runs more than `MipLevels` times (none at all when the count is negative as an `int`) |
| TextureLoading.MipChain | Experiments/ContentLoader.cpp:243-252 | the chain has one written level per iteration |
| TextureLoading.Unsets | Experiments/ContentLoader.cpp:230 | the untouched entries of `init` stay zero |
| TextureLoading.MipChainLevels | Experiments/ContentLoader.cpp:243-252 | level k has both sides halved k times and pitches from them; level 0 starts at the pixel data; each level starts where the previous slice ends |
| TextureLoading.LayoutShape | Experiments/ContentLoader.cpp:236-265 | a square texture with several levels gets exactly its `MipLevels` levels, anything else one level of the whole image with `MipLevels` forced to 1; the rest of `init` is zero; more than 20 levels is undefined |
| TextureLoading.Layout | Experiments/ContentLoader.cpp:225-265 | definition of the mip levels and the `init` array; `LayoutShape` and `MipChainLevels` state what they are |
| TextureLoading.PixelDataSize | Experiments/ContentLoader.cpp:202 | definition of the 32-bit pixel size; `ShortFileWrapsPixelSize` states its wrap-around |
| TextureLoading.LoadTextureSpec | Experiments/ContentLoader.cpp:176-280 | definition of `LoadTexture`; the `LoadTexture` method is proved against it |
| TextureLoading.FillFromChain | Experiments/ContentLoader.cpp:243-252 | the remaining iterations of the loop complete the chain after the levels already written, or overrun `init` |
| TextureLoading.FillMipChain | Experiments/ContentLoader.cpp:239-252 | the loop over the array writes exactly the mip chain followed by zero entries, and reports an overrun past 20 levels |
| TextureLoading.FillSubresources | Experiments/ContentLoader.cpp:225-265 | `init` and the device's `MipLevels` are those of the layout, defined exactly when the layout is |
| TextureLoading.LoadTexture | Experiments/ContentLoader.cpp:176-280 | fails when the file is missing or has the wrong signature, else yields the header's texture with its layout |
| TextureLoading.ShortFileWrapsPixelSize | Experiments/ContentLoader.cpp:202 | a file shorter than its header gets a pixel size wrapped round 2^32 |
| TextureCaching.ResolveSlot | Experiments/ContentLoader.cpp:116-133 | one slot: an empty name loads nothing, a cached path reuses its view, any other path is loaded and cached on success |
| TextureCaching.AcquireSpec | Experiments/ContentLoader.cpp:119-132 | definition of the cache lookup and load on a miss; `AcquireKeepsCache` states what it does |
| TextureCaching.SlotSpec | Experiments/ContentLoader.cpp:116-133 | definition of one texture slot; `SlotOutcome` and `SlotKeepsCache` state what it does |
| TextureCaching.GrowsTransitive | Experiments/ContentLoader.cpp:127 | growing the cache twice is growing it once |
| TextureCaching.AcquireKeepsCache | Experiments/ContentLoader.cpp:119-132 | a lookup keeps the cache valid and only grows it; a hit loads nothing; a miss caches the path exactly when it loads, so no path is loaded twice |
| TextureCaching.SlotOutcome | Experiments/ContentLoader.cpp:116-133 | a slot fails exactly when its name is non-empty and its texture does not load; an empty name leaves the cache alone |
| TextureCaching.SlotKeepsCache | Experiments/ContentLoader.cpp:116-133 | every slot keeps the cache valid and only grows it |
| ReaderFormat.ObjectsRead | Experiments/ContentLoader.cpp:85-92 | the object loop reads `NumObjects` records (none when negative as an `int`), zero records past the end of the file |
| ReaderFormat.OpenModel | Experiments/ContentLoader.cpp:17-37 | the file is read exactly when it opens and its signature is the expected one |
| ReaderFormat.LoadPartTextures | Experiments/ContentLoader.cpp:116-169 | the diffuse, normal and specular slots in that order, the first failing one stopping the part |
| ReaderFormat.PartTexturesViews | Experiments/ContentLoader.cpp:116-169 | a part succeeds exactly when each slot has a view for exactly a non-empty name |
| ReaderFormat.PartTexturesKeepCache | Experiments/ContentLoader.cpp:116-169 | the three slots keep the cache valid and only grow it |
| ReaderFormat.PartLoaderForLoads | Experiments/ContentLoader.cpp:116-169 | the part step each reader uses resolves the slots against its own root, files and signature |
| ContentLoading.PrefixedStep | Experiments/ContentLoader.cpp:96-169 | one part iteration: a failing part is kept and ends the loop, else the loop goes on with the cache after it |
| ContentLoading.PrefixedAppend | Experiments/ContentLoader.cpp:85-171 | the part loop over the records of one object and then the rest is the loop over the first, continued from its cache unless it stopped |
| ContentLoading.LoadRecordParts | Experiments/ContentLoader.cpp:96-170 | the part loop over one object's records gives the parts and cache of the part loop definition |
| ReaderFormat.FlattenFrom | Experiments/ContentLoader.cpp:85-96 | the records from object `i` on are object `i`'s, then those after it |
| ContentLoading.PartsSpecMeshes | Experiments/ContentLoader.cpp:96-170 | one part per record, in order, covering the record's index range at the one base vertex in the one pool; all records on success, the failing part last on failure; each completed part has exactly its named views |
| ContentLoading.PartsSpec | Experiments/ContentLoader.cpp:96-170 | definition of the part loop; `PartsSpecMeshes` and `PartsSpecKeepsCache` state what it does |
| ContentLoading.PartsSpecKeepsCache | Experiments/ContentLoader.cpp:96-170 | the part loop keeps the texture cache valid and only grows it |
| ContentLoading.ExactPoolReserves | Experiments/ContentLoader.cpp:42-47 | a pool sized to the header always grants the whole of both buffers at bases 0 |
| ContentLoading.ContentLoader.constructor | Experiments/ContentLoader.cpp:5-9 | a new loader has its content root and an empty texture cache |
| ContentLoading.ContentLoader.LoadObject | Experiments/ContentLoader.cpp:11-174 | no object when the file does not open or has the wrong signature; undefined when the pool is null; else a full pool and the part loop's parts and cache |
| ContentLoading.ContentLoader.LoadParts | Experiments/ContentLoader.cpp:85-171 | the nested object and part loops give the part loop over all part records in file order, keeping the cache valid |
| TestRendering.MeshesSpecRanges | Experiments/TestRenderer.cpp:129-198 | one mesh per record on success, fewer on failure, each covering its record's index range with exactly its named views |
| TestRendering.MeshesSpec | Experiments/TestRenderer.cpp:129-198 | definition of the part loop of one object; `MeshesSpecRanges` and `MeshesSpecKeepsCache` state what it does |
| TestRendering.ObjectsSpec | Experiments/TestRenderer.cpp:116-201 | definition of the object loop; `ObjectsSpecShape` and `ObjectsSpecKeepsCache` state what it does |
| TestRendering.ObjectsSpecShape | Experiments/TestRenderer.cpp:116-201 | one object per record on success, fewer on failure, each named after its record with one complete mesh per part |
| TestRendering.MeshesSpecKeepsCache | Experiments/TestRenderer.cpp:142-195 | the part loop keeps the texture cache valid and only grows it |
| TestRendering.ObjectsSpecKeepsCache | Experiments/TestRenderer.cpp:116-201 | the object loop keeps the texture cache valid and only grows it |
| TestRendering.MeshesStep | Experiments/TestRenderer.cpp:129-198 | one part iteration: a failing part pushes no mesh and ends the loop, else its mesh is pushed |
| TestRendering.ObjectsStep | Experiments/TestRenderer.cpp:116-201 | one object iteration: an object is pushed only when all its meshes were built |
| TestRendering.BuildMeshes | Experiments/TestRenderer.cpp:129-198 | the part loop of one object gives the meshes and cache of the part loop definition |
| TestRendering.TestRenderer.constructor | Experiments/TestRenderer.cpp:22-25 | a new renderer has no scene and an empty texture cache |
| TestRendering.TestRenderer.AddMeshes | Experiments/TestRenderer.cpp:31-204 | false with nothing changed when the file does not open or has the wrong signature; an empty scene when a buffer is not created; else the objects and cache of the object loop, keeping the cache valid |
| TestRendering.TestRenderer.AddObjects | Experiments/TestRenderer.cpp:116-203 | the object loop appends the objects of the object loop definition to an empty scene and keeps the cache valid |
| StringHelpers.CStrUpToNul | AssetLoader/StringHelpers.h:20 | seen from a start, the C string is the text up to the first NUL after it |

## Left out

- Floating point: coordinates, colours, the flat normals of `ObjModel.cpp` and `Model.cpp`, normal renormalisation, the texcoord flip and `sscanf_s` parsing. Every element is kept as the source line or index it came from.
- Device work: buffer, texture and view creation and `UpdateSubresource` are not modelled. Buffer creation is a flag per buffer. `CreateTexture2D` and `CreateShaderResourceView` are taken to succeed, so their failure paths in `LoadTexture` are not modelled.
- `TextureLoading.LoadTexture`: a failing `ReadFile` is not modelled, and neither is a failing `new` of the pixel buffer. The header layout (six 32-bit fields, 24 bytes) and its signature are not part of the sources, so the signature is a parameter.
- `TextureLoading.LoadTexture`: the model does not check that the levels fit in the pixel data read; the source does not check this either.
- sRGB format promotion is not modelled: `USE_SRGB` is not defined in `TestRenderer.cpp`.
- Transforms (`RootTransform`, `RelativeTransform`, `World`) are not modelled; they are always the identity.
- `ReaderFormat.ObjectsRead`: a record read past the end of the file is a zero object. Within an object the part list is the file's own, so a truncated part list and an `(int)NumParts` of 2^31 or more are not modelled. Model files and texture files are given as separate maps.
- `ContentLoading.ContentLoader.LoadObject`: the vertex and index reads and uploads are not modelled, and every `ReadFile` of the open model file is taken to succeed: the header read (`ContentLoader.cpp:27-30`) and the object and part record reads (`88-91`, `99-102`). A null pool from `GeometryPool::Create` is dereferenced, which is `Undefined`.
- `ReaderFormat.OpenModel`: the header `ReadFile` of the open model file (`ContentLoader.cpp:27-30`, `TestRenderer.cpp:45-49`) is taken to succeed; only a file that does not open or has the wrong signature gives no model.
- `ContentLoading.ContentLoader.LoadParts`, `ContentLoading.PartsSpec`, `ContentLoading.LoadRecordParts`: each object and part record `ReadFile` on the open file (`ContentLoader.cpp:88-91`, `99-102`) is taken to succeed; only a failing part texture ends the loop early.
- `TestRendering.TestRenderer.AddMeshes`: every `ReadFile` of the open model file is taken to succeed: the header (`TestRenderer.cpp:45-49`), the vertices (`63-67`), the indices (`91-95`) and the object and part records (`119-123`, `132-136`).
- `TestRendering.TestRenderer.AddObjects`, `TestRendering.ObjectsSpec`: each object and part record `ReadFile` on the open file (`TestRenderer.cpp:119-123`, `132-136`) is taken to succeed.
- `TestRendering.MeshesSpec`, `TestRendering.BuildMeshes`: each part record `ReadFile` on the open file (`TestRenderer.cpp:132-136`) is taken to succeed; only a failing part texture ends the loop early.
- `TestRenderer.h` declares neither `SpecularSRV` nor `CachedTextureMap`. The model follows `TestRenderer.cpp`.
- `TestRenderer::Create`, `Initialize`, `Render`, `Clear`, `Present` and the deferred renderer are not modelled: they are device and window plumbing.
- `Model.cpp` reads `PositionIndices`, `NormalIndices`, `TextureIndices` and `MinBounds`, which the shown headers do not declare. The writer takes its own input with the fields it uses, and `BuildModel` takes the conversion from the parsed scene to that input as a parameter.
- `Assets.BuildModel`: `BuildAsset`, which builds a part's diffuse texture, is a parameter giving the names it produces. Its effects on the file system and `Texture.cpp` (the DirectXTex decoders) are not modelled.
- `FileSystem.TextFiles`: model output files are not readable as text, and share modes are not modelled.
- `Assets.WriteTimeEntry`: `GetFileTime` and `WriteFile` are taken to succeed once the file opens.
- `Assets.NeedsBuild`, `Assets.NeedsBuildExactly`, `Assets.DoesAssetNeedBuilt`: `ReadFile` of the open `.time` file and `GetFileTime` of the open source are taken to succeed, so their `return false` paths (`Assets.cpp:138-142`, `154-158`) are not modelled; failure comes only from a short time file or a source that does not open.
- `Crt.Atoll`: does not saturate on values beyond the `long long` range.
- `Config.ReadConfig`: the buffer is modelled as the file followed by one NUL. The source allocates exactly the file size, so a last line without a line break is read past the buffer, and so is the byte at `end` where the gap skip at `Main.cpp:128` tests `*p` before `p < end`.
- `Config.SkipGapsIn`: tests the bound before reading, so the read of the byte at `end` is not modelled; when `p < end` fails the loop stops whatever that byte holds.
- `Config.TrimLineInBuffer`: for a config whose first byte is `\n`, `\r` or NUL, the source trims the empty first line and reads `buffer[-1]` (`StringHelpers.h:22-24`). The model skips that call; whatever the byte holds, the scan stops at once and only rewrites the NUL already there. `Config.ReadConfigSpec` returns an `Option`, so this read is not reported as undefined.
- `StringHelpers.TrimTrailingWhitespace`: an empty string at the start of the buffer is excluded by its precondition, because the source then reads one character before the buffer.
- `ObjLines.SkipNewlines`: the loop at `ObjModel.cpp:160` reads `*p` before testing `p < end`, so at the end of every non-empty OBJ file it reads one byte past `new char[fileSize]`. This read is not modelled: when `p < end` fails the loop stops whatever the byte holds. `ObjModelClass.SkipLineBreaks` tests the bound first for the same reason.
- `ModelWriter.SaveModel`: a `WriteFile` of the open model file is taken to succeed, so its `return false` paths (`Model.cpp:44-48`, `60-64`, `87-91`, `138-142`) are not modelled.
- `ModelWriter.SaveSpec`: defines `SaveModel` with every `WriteFile` succeeding, for the same reason.
- `ModelWriter.WritePart`, `ModelWriter.WriteParts`, `ModelWriter.WriteObject`, `ModelWriter.WriteObjects`: each record write is taken to succeed; only a failing `BuildAsset` or an overlong name stops the writer.
- `ObjLoad.LoadSpec`: a failing `new` of the file buffer or a failing `ReadFile` (`ObjModel.cpp:27-40`) is taken not to happen; only a file that cannot be opened gives false there. The same holds for `ObjModelClass.ObjModel.Load`.
- `ObjMtl.LoadMaterialsSpec`: a failing `new` or `ReadFile` of the material file (`ObjModel.cpp:320-333`) is taken not to happen. The same holds for `ObjModelClass.ObjModel.LoadMaterials`.
- `Config.ReadConfigSpec`: a failing `new` or `ReadFile` of the config (`Main.cpp:78-90`) is taken not to happen; only a file that cannot be opened gives false.
- `Crt.Drop`: reading `line + k` past the terminator of a line shorter than `k` gives the empty string. In the source it reads whatever follows in the buffer.
- `Geometry.GeometryPool.ReserveRange`: the class method implements the corrected room test of `Geometry.Reserve`, not the wrapping 32-bit test at `Experiments/Geometry.cpp:75-76`; the code as written is `Geometry.ReserveAsWritten` (see Findings).
- `AssetTypes.Extension`: the table is a constant. The source fills the global `Extensions` map on the first call of `ProcessAssets`, and that lazy fill is not modelled.
- `StringHelpers` does not normalise repeated slashes (neither does the source); Unicode and code pages are not modelled beyond MSVC's sign-extending `char`.
- Logging, `PRINT_LINE`, COM initialisation (a flag) and the windowing, vision and frame-provider code are not modelled.
- A face corner such as `1//3` collapses the empty field, as `strtok_s` does: the normal index lands in the texcoord slot. `ObjFace.ReadCornerCollapsesEmptyField` states this as behaviour.

## Findings

| source | as written | input that shows it | evidently intended | confidence | as-written member | corrected member |
|---|---|---|---|---|---|---|
| Experiments/Geometry.cpp:73-89 | the room test adds `VertexCount + vertexCount` in `uint32_t`, so a wrapping sum passes it, and the counter wraps too | `VertexCount` 1, capacity 10, request `0xFFFFFFFF` vertices: the sum wraps to 0, the range is granted, and the counter goes back to 0 | grant a range only when it fits in the room left, without wrap-around | not executed | Geometry.ReserveAsWrittenOverruns | Geometry.ReserveWithinCapacity |
