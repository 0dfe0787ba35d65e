# sphinxcontrib-umlet, modelled in Dafny

sphinxcontrib-umlet is a Sphinx extension that embeds UMLet diagrams (`.uxf`
files) in documentation. Two directives, `umlet-image` and `umlet-figure`,
build an ordinary docutils image node and tag it with the class `umlet`. A
post-transform converter (`UMLetConverter`, a Sphinx `ImageConverter`) then
does three things. It guesses an `application/x-umlet[-<format>]` MIME type for
every tagged node. It offers Sphinx conversion rules from those types to
`image/png`, `image/jpeg`, `image/svg+xml` and `application/pdf`. For the rule
Sphinx chooses, it runs the UMLet command-line converter, unless a cached
export under `<doctreedir>/umlet/<sha1 of the hash key>/` is newer than the
source. The hash key is the relative source path with a newline put between
each two of its characters.

This project models that core:

- `Formats`: the format registry, `is_valid_format` and `boolean_spec`.
- `DocTree`: docutils nodes as a mutable `Element` class, the pre-order
  `traverse`, and the directive's `run` that tags the first image node.
- `Rules`: the conversion rules, the converter's default export format and
  `guess_mimetypes`.
- `Cache`: the hash key, the cache directory layout and the staleness test.
- `Invoke`: choosing the executable, the argument vector, and how the process
  outcome is classified.
- `Converter`: `_umlet_export` and `handle`.
- `Paths` and `Files` model the parts of `pathlib` and the file system that
  these functions use.
- `Errors` and `Wrappers` provide the error kinds and `Option`/`Result`.

Things outside the plugin become values or parameters:

- the file system is a `FileSystem` object holding a map from path to
  file/directory and modification time;
- the clock is a `now` parameter;
- `platform.system()` is a flag;
- `shutil.which` is a lookup table;
- `sha1`, Sphinx's `get_filename_for` and the UMLet process are functions in
  an `Externals` value.

A Python exception is an `Err` result naming the exception. Raising returns
early and, as in the source, leaves every change made before the raise in
place.

`_umlet_export` is specified by the function `ExportStep`. The method
`Converter.Export` is proved to perform exactly that step on the file system.
The lemmas about `ExportStep` state the caching behaviour:

- the cache is hit exactly when the stored image is strictly newer than the
  source;
- a second build over an unchanged source reuses the image and changes nothing;
- a build after the source is replaced regenerates a newer image;
- a conversion that fails after writing its output leaves a file that the next
  build takes for a valid cached image.

The hash key is modelled as the code builds it. `unique_values` is a
parenthesised plain string, not a one-element tuple, so `"\n".join` puts a
newline between every two characters of the relative path. The model proves
this key still determines the path (`Cache.HashKeyInjective`), so it is not
a defect. Distinct sources get distinct cache keys under a collision-free
digest (`Cache.DistinctSourcesDistinctKeys`). They also get distinct cache
directories when, in addition, every digest is a single path component, as
hex text is (`Cache.DistinctSourcesDistinctDirs`).

## Model

| member | source | states |
|---|---|---|
| Formats.IsValidFormat | sphinxcontrib/umlet/__init__.py:48-60 | `None` is accepted and returned. A format is accepted exactly when it is in the registry and the builder supports its MIME type, and it is then returned unchanged. An unknown format raises "unsupported"; a known format the builder cannot embed raises "invalid for builder", naming the builder. Both are `UMLetError`s. |
| Formats.IsValidFormatIdempotent | sphinxcontrib/umlet/__init__.py:48-60 | Validating a format that already passed validation gives the same result. |
| Formats.ValidOutputFormatsInjective | sphinxcontrib/umlet/__init__.py:32-37 | No two export formats share a MIME type. |
| Formats.BooleanSpec | sphinxcontrib/umlet/__init__.py:63-69 | Succeeds exactly on "true" and "false" and returns true exactly for "true". Any other argument, missing included, raises ValueError. |
| Formats.BooleanSpecRoundTrip | sphinxcontrib/umlet/__init__.py:63-69 | Every boolean written as option text is read back as itself. |
| DocTree.Element.constructor | sphinxcontrib/umlet/__init__.py:83-84 | A node built over finite subtrees is itself a finite tree holding exactly the given kind, format, classes, candidates, uri and children. |
| DocTree.Traverse | sphinxcontrib/umlet/__init__.py:72-75 | Every node the walk yields lies in the forest: it is a root or below one. |
| DocTree.TraverseAppend | sphinxcontrib/umlet/__init__.py:72-75 | Walking two forests in turn is walking their concatenation. |
| DocTree.ForestValidAppend | sphinxcontrib/umlet/__init__.py:72-75 | Two forests of finite trees side by side form one. |
| DocTree.TraverseVisitsAll | sphinxcontrib/umlet/__init__.py:72-75 | A node is yielded by the walk if and only if it is a root of the forest or lies below one. |
| DocTree.FirstImageIndex | sphinxcontrib/umlet/__init__.py:85-88 | Gives the position of an image node with no image node before it, or none when the walk holds no image node. |
| DocTree.FindImage | sphinxcontrib/umlet/__init__.py:85-88 | The loop stops at exactly the first image node of the pre-order walk, or reports that there is none. |
| DocTree.Run | sphinxcontrib/umlet/__init__.py:83-90 | Fails exactly when the tree holds no image node; the Python code then reads an unbound `image`. Otherwise it returns the nodes it was given. "umlet" is appended to the classes of the first image node in pre-order, and only that node. No other classes, candidates or uri change. |
| Rules.MimetypeFor | sphinxcontrib/umlet/__init__.py:135-136 | The guessed MIME type always starts with "application/x-umlet". It is the bare type exactly when no non-empty format was chosen. |
| Rules.FormatOf | sphinxcontrib/umlet/__init__.py:104-115 | A decoder of umlet MIME types, written for the proofs as the partner of `MimetypeFor`. The bare type, and only it, names no format. |
| Rules.MimetypeRoundTrip | sphinxcontrib/umlet/__init__.py:135-136 | The MIME type built for a format names that format; the bare type names none. |
| Rules.RulesFollowRegistry | sphinxcontrib/umlet/__init__.py:104-115 | Every rule starts from an umlet MIME type. An explicit-format rule targets exactly the registry's MIME type for that format. A bare rule targets a registered MIME type. |
| Rules.RulesCoverRegistry | sphinxcontrib/umlet/__init__.py:104-115 | Every registered format has its explicit-format rule. The bare umlet MIME type has a rule to every registered MIME type. |
| Rules.DefaultExportFormat | sphinxcontrib/umlet/__init__.py:117-121 | With no format configured for the builder, the default is `None`. Otherwise it is the configured format, and construction fails exactly when that format is unacceptable for the builder. |
| Rules.GuessMimetypes | sphinxcontrib/umlet/__init__.py:131-138 | An untagged node gets no MIME type. A tagged node fails exactly when its own format is invalid, raising the validation error. Otherwise it gets exactly one MIME type naming its own format if that is non-empty, else the default if that is non-empty, else no format. |
| Rules.GuessedMimetypeHasRule | sphinxcontrib/umlet/__init__.py:104-138 | Assume a valid default and at least one format the builder can embed. Then every guessed MIME type is the source of a rule whose target the builder supports. |
| Paths.NameLength | sphinxcontrib/umlet/__init__.py:149 | Gives the length of the leading separator-free part of a path string. |
| Paths.Split | sphinxcontrib/umlet/__init__.py:149 | Parsing a path string yields only proper components, with no empty or "." names. |
| Paths.Append | sphinxcontrib/umlet/__init__.py:149 | Joining a string onto a well-formed path yields a well-formed path. |
| Paths.AppendComponent | sphinxcontrib/umlet/__init__.py:177 | Appending a single component adds exactly that component. |
| Paths.NameOnly | sphinxcontrib/umlet/__init__.py:177 | A single component parses to itself. |
| Paths.NameLengthOfName | sphinxcontrib/umlet/__init__.py:177 | A separator-free name followed by a separator or by nothing has its own length as its leading name. |
| Paths.SplitJoin | sphinxcontrib/umlet/__init__.py:173 | Printing a well-formed path and parsing it back gives the same components. |
| Paths.RelativeTo | sphinxcontrib/umlet/__init__.py:167 | Succeeds exactly when the base is a prefix of the path. Base plus result is then the path. |
| Paths.Parent | sphinxcontrib/umlet/__init__.py:178 | The parent plus the last component is the path; the root is its own parent. |
| Paths.LastDot | sphinxcontrib/umlet/__init__.py:180 | Gives the index of a '.' with no '.' after it, or -1 when there is none. |
| Paths.Suffix | sphinxcontrib/umlet/__init__.py:180 | The suffix is empty or a dot-free extension, together with its leading dot, at the end of a longer name. |
| Paths.SuffixOfExtension | sphinxcontrib/umlet/__init__.py:180 | The suffix of "stem.ext" is ".ext" when ext holds no dot. |
| Files.Prefixes | sphinxcontrib/umlet/__init__.py:178 | Exactly the directories from the top down to `d` itself. |
| Files.MakeDirs | sphinxcontrib/umlet/__init__.py:178 | In this model of the file system, `mkdir(parents=True, exist_ok=True)` fails exactly when some prefix is a file. On success, every prefix is a directory, every existing entry is kept unchanged, and the only new entries are prefixes. |
| Files.MakeDirsIdle | sphinxcontrib/umlet/__init__.py:178 | When every prefix is already a directory, `mkdir` changes nothing. |
| Files.FileSystem.constructor | sphinxcontrib/umlet/__init__.py:149-150 | The file system holds exactly the given entries. |
| Files.FileSystem.Mkdir | sphinxcontrib/umlet/__init__.py:178 | Succeeds exactly when no prefix is a file. It then leaves the state `MakeDirs` gives; on failure nothing changes. |
| Files.FileSystem.Write | sphinxcontrib/umlet/__init__.py:213-216 | The converter's output file now exists as a file stamped `now`, and nothing else changes. |
| Cache.HashKey | sphinxcontrib/umlet/__init__.py:170-175 | The key is 2n-1 long for a path string of n > 0 characters. The path's characters sit at the even positions, and a newline at every odd position. |
| Cache.HashKeyRoundTrip | sphinxcontrib/umlet/__init__.py:170-175 | Reading every other character of the key gives the path back. |
| Cache.HashKeyInjective | sphinxcontrib/umlet/__init__.py:170-175 | Different path strings give different hash keys. |
| Cache.CacheKey | sphinxcontrib/umlet/__init__.py:166-176 | Fails with ValueError exactly when the source lies outside the source directory. Otherwise it is the digest of the hash key of the relative path. |
| Cache.CacheKeyIgnoresRoot | sphinxcontrib/umlet/__init__.py:171-173 | The key is the same wherever the source directory lies. It depends only on the path below it, as the comment there intends. |
| Cache.RelStrInjective | sphinxcontrib/umlet/__init__.py:173 | Different well-formed relative paths print differently. |
| Cache.DistinctSourcesDistinctKeys | sphinxcontrib/umlet/__init__.py:167-176 | With a collision-free digest, two different sources get different cache keys. |
| Cache.DistinctSourcesDistinctDirs | sphinxcontrib/umlet/__init__.py:167-177 | With a collision-free digest whose values are single path components, two different sources never share a cache directory. |
| Cache.ImageDir | sphinxcontrib/umlet/__init__.py:123-125 | The image directory is the entry "umlet" directly inside the doctree directory. |
| Cache.ExportPath | sphinxcontrib/umlet/__init__.py:177 | `imagedir / sha_key / out_filename` is a well-formed path whenever the doctree directory is. |
| Cache.Fresh | sphinxcontrib/umlet/__init__.py:182-185 | The hit test holds only when both paths exist and the image is strictly newer than the source, so the image is never the source itself. |
| Cache.ExportLayout | sphinxcontrib/umlet/__init__.py:123-125 | The export path is `<doctreedir>/umlet/<key>/<out_filename>`; its parent is the key directory and its name the file name. |
| Invoke.BinaryName | sphinxcontrib/umlet/__init__.py:188-191 | The default executable name is a bare file name, with no directory part, as a PATH lookup needs. |
| Invoke.ResolveBinary | sphinxcontrib/umlet/__init__.py:188-200 | A non-empty configured path wins. Otherwise the PATH lookup of "Umlet.exe" on Windows or "umlet.sh" elsewhere decides. The call fails with "No UMLet executable found" exactly when neither yields a path, and that failure is a `UMLetError`. |
| Invoke.FormatArg | sphinxcontrib/umlet/__init__.py:180 | The format argument holds no dot. When non-empty, it is the output name's extension, dot excluded. |
| Invoke.FormatArgOfExtension | sphinxcontrib/umlet/__init__.py:180 | For an output named "stem.ext", the format argument is "ext". |
| Invoke.UmletArgs | sphinxcontrib/umlet/__init__.py:202-208 | The argument vector has five entries and starts with the chosen executable. Its options are stated by `Invoke.ArgsCarryRequest`. |
| Invoke.OptionValue | sphinxcontrib/umlet/__init__.py:202-208 | A decoder of argument vectors, written for the proofs as the partner of `UmletArgs`, as the converter would read its options. It finds no value exactly when no argument starts with the flag. Otherwise the value is what follows the flag in the first argument that starts with it. |
| Invoke.Command | sphinxcontrib/umlet/__init__.py:220 | The space-joined command quoted in the error messages starts with the executable. |
| Invoke.ArgsCarryRequest | sphinxcontrib/umlet/__init__.py:202-208 | The argument vector passes the convert action, the format, the absolute source path and the absolute output path, each under its own option. |
| Invoke.Classify | sphinxcontrib/umlet/__init__.py:213-240 | Success comes exactly when the process exited 0 and the output file exists, and it returns the export path. A spawn failure raises with the OS error. A non-zero exit raises with stdout, stderr and the return code. A zero exit without an output file raises with stdout and stderr. Every error is a `UMLetError` and quotes the space-joined command. |
| Converter.ExportPathOf | sphinxcontrib/umlet/__init__.py:165-177 | The export path exists exactly when the cache key does. It is then `ExportPath(doctreedir, key, out_filename)`, that is `imagedir / sha_key / out_filename`. |
| Converter.ExportBelowDoctree | sphinxcontrib/umlet/__init__.py:176-179 | A digest and an output file name that are plain components, as a hex digest and the name Sphinx picks are, put the export at `<doctreedir>/umlet/<key>/<out_filename>`. Taking its path relative to the doctree directory then succeeds. |
| Converter.ExportStep | sphinxcontrib/umlet/__init__.py:165-240 | A successful export returns the export path, which then exists. No path of the file system ever disappears, and the only paths it adds are the export path and the directories above it. |
| Converter.CacheStep | sphinxcontrib/umlet/__init__.py:182-240 | After `mkdir`, success returns the output path, which then exists. The file system changes only when the converter runs, and only at the output path: every other path keeps its entry and no other path is added. |
| Converter.ConvertStep | sphinxcontrib/umlet/__init__.py:202-240 | The converter is started with the given arguments. It changes nothing but the output path: every other path keeps its entry and no other path is added. Success means the output exists. |
| Converter.Export | sphinxcontrib/umlet/__init__.py:165-240 | The method performs exactly `_umlet_export` as `ExportStep` specifies it: its result, the file system it leaves, and the converter invocation. |
| Converter.ExportCached | sphinxcontrib/umlet/__init__.py:180-240 | After `mkdir`, the method performs exactly the cache step `CacheStep` specifies: the staleness test, choosing the executable, and the conversion. |
| Converter.AfterMkdir | sphinxcontrib/umlet/__init__.py:177-178 | Once the cache directory can be made, the export is the cache step on the state `mkdir` leaves. That state keeps every existing path and makes every directory above the output, none of which is the output itself. |
| Converter.CacheDecision | sphinxcontrib/umlet/__init__.py:178-208 | Take a source that exists, an export path below the doctree directory and a cache directory that can be made. Every directory above the export exists afterwards, on a hit as on a miss. The stored image is returned without running the converter exactly when it exists and is strictly newer than the source. Otherwise, once an executable is found, the converter runs with the argument vector for this source and output. |
| Converter.RebuildUnchanged | tests/test_update.py:13-19 | A second build over an unchanged source, at any later time, reuses the first build's image. It returns the same path, does not run the converter and changes nothing. This assumes the converter wrote its output when it ran, and that every existing path is strictly older than the first build's clock. |
| Converter.ReusedAfterward | sphinxcontrib/umlet/__init__.py:182-240 | Take a successful cache step whose converter wrote the output if it ran. It leaves an image strictly newer than its source, and every other path keeps its entry. |
| Converter.RebuildAfterChange | tests/test_update.py:22-31 | Assume the source is at least as new as the stored image, and the converter exits 0 having written its output, whatever it prints. Then the build runs the converter and leaves an image strictly newer than before. This assumes every existing path is strictly older than the build's clock. |
| Converter.FailedStepLeavesFresh | sphinxcontrib/umlet/__init__.py:213-232 | A cache step whose converter exits non-zero after writing the output fails with the converter error. It still leaves that output strictly newer than its source. |
| Converter.FailedConversionLeavesCacheHit | sphinxcontrib/umlet/__init__.py:182-232 | A conversion that exits non-zero after writing its output raises. The next build nevertheless takes that file for a valid cached image and does not run the converter. This assumes every existing path is strictly older than the failing build's clock. |
| Converter.SourcePath | sphinxcontrib/umlet/__init__.py:144-147 | The source is the candidate for the rule's source MIME type, else the "*" candidate. With neither, the call raises KeyError for "*". |
| Converter.Rewrite | sphinxcontrib/umlet/__init__.py:156-159 | Only the "*" candidate, if there is one, else the target MIME type's candidate, is set to the converted path. All other candidates are kept. |
| Converter.Handle | sphinxcontrib/umlet/__init__.py:140-160 | A missing candidate raises KeyError and changes nothing. A source absent from the file system returns and changes nothing. Otherwise the file system changes exactly as `ExportStep` says for the file name Sphinx chooses. An export error leaves the node untouched. On success the node's uri and the rewritten candidate both become the absolute export path. |

## Left out

- `format_spec` (`__init__.py:44-45`) is docutils' `directives.choice` over the registry keys. The choice helper is not part of this model.
- The directive classes' option tables (`__init__.py:78-100`) and Sphinx's construction of the image or figure node (`super().run()`) are left out. `DocTree.Run` starts from the nodes that call builds.
- `get_conversion_rule`, Sphinx's matching of guessed MIME types against `conversion_rules`, and `get_filename_for` belong to Sphinx. `Converter.Handle` takes the chosen rule as a parameter and the file name function as an external.
- `is_available` and `__init__` calling its base class are one-liners; only the validation in `__init__` is modelled, as `Rules.DefaultExportFormat`.
- The environment bookkeeping at `__init__.py:162-163` (`original_image_uri`, `images.add_file`) is state of Sphinx's build environment, which is not part of this model.
- The log line (`__init__.py:212`) is not modelled. `export_relpath` (`__init__.py:179`) is modelled only for the ValueError it raises when the export path is not below the doctree directory.
- `Cache.CacheKey`: the SHA-1 digest is an uninterpreted function parameter. Its value is never assumed, only two properties: distinct outputs (`DistinctSourcesDistinctKeys`, `DistinctSourcesDistinctDirs`) and outputs that are single path components, as hex text is (`DistinctSourcesDistinctDirs`, `Converter.ExportBelowDoctree`).
- `Invoke.Classify`: only exceptions' kinds and fields are modelled, not their message texts.
- File modification times are integers here; Python compares floats. The Rebuild and Failed lemmas in `Converter` assume every existing path is strictly older than the build's clock (`Converter.Before`), so a freshly written image is strictly newer than its source. On a file system with coarse timestamps, a source and its image can share one mtime. The image is then never fresh, and the source reconverts it on every build.
- Creating a directory or a file does not update its parent directory's modification time here: `Files.MakeDirs`, `Files.FileSystem.Write` and `Converter.AfterMkdir` keep every existing entry unchanged. No contract depends on a directory's modification time.
- Operating-system failures of `mkdir`, `stat`, `exists` and the write are not modelled: permissions, a read-only file system, a full disk. `Files.MakeDirs` fails only when a prefix is a file.
- What the UMLet process does to the file system is limited to writing, or not writing, the output file.
- Paths are POSIX-style. Windows separators and drive letters, a ".." component (pathlib keeps it unresolved, as this model does), and null bytes (ValueError in `os.path.exists`) are not modelled.
- `os.environ.copy()`, subprocess pipes and concurrency between builds are not modelled.
- `on_build_finished` and `setup` (`__init__.py:243-260`) copy a stylesheet and register the extension with Sphinx, which is outside this model.
- A node's children are fixed when it is built; docutils lets a tree be rearranged later, which nothing in the plugin does.
