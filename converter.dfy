/** `UMLetConverter.handle` and `_umlet_export`: resolve the diagram source, reuse
    or regenerate the cached image, and point the image node at it. */
module Converter {

  import opened Wrappers
  import opened Paths
  import opened Files
  import opened Errors
  import opened Formats
  import opened DocTree
  import opened Rules
  import opened Cache
  import opened Invoke

  /** The configuration and build directories the converter reads. */
  datatype Config = Config(
    srcdir: Path,                        // app.srcdir, builder.srcdir
    doctreedir: Path,                    // app.doctreedir, builder.doctreedir
    builder: Builder,
    binaryPath: Option<string>,          // umlet_binary_path
    exportFormats: map<string, string>)  // umlet_builder_export_format

  /** What the converter gets from outside: the platform, the PATH lookup, the
      digest, the converter process and Sphinx's `get_filename_for`. */
  datatype Externals = Externals(
    isWindows: bool,
    pathLookup: map<string, string>,
    sha1: string -> string,
    umlet: seq<string> -> Proc,
    filenameFor: (string, string) -> string)

  /** One run of `_umlet_export`: its outcome, the file system afterwards and the
      argument vector the converter was started with, if it was. */
  datatype ExportRun = ExportRun(result: Result<Path, Error>, entries: Entries, invoked: Option<seq<string>>)

  /** The path `_umlet_export` stores the image of `input` at:
      `<doctreedir>/umlet/<digest of the hash key>/<out_filename>`. */
  function ExportPathOf(cfg: Config, input: Path, outFilename: string, ext: Externals): (r: Result<Path, Error>)
    ensures r.Ok? <==> CacheKey(cfg.srcdir, input, ext.sha1).Ok?
    ensures r.Ok? ==> r.value == ExportPath(cfg.doctreedir, CacheKey(cfg.srcdir, input, ext.sha1).value, outFilename)
  {
    var key :- CacheKey(cfg.srcdir, input, ext.sha1);
    Ok(ExportPath(cfg.doctreedir, key, outFilename))
  }

  /** A hex digest and the file name Sphinx picks are single path components;
      then the image lies in its own directory below the doctree directory, so
      taking its path relative to that directory never fails. */
  lemma ExportBelowDoctree(cfg: Config, input: Path, outFilename: string, ext: Externals)
    requires CacheKey(cfg.srcdir, input, ext.sha1).Ok?
    requires IsComponent(CacheKey(cfg.srcdir, input, ext.sha1).value) && IsComponent(outFilename)
    ensures ExportPathOf(cfg, input, outFilename, ext).Ok?
    ensures ExportPathOf(cfg, input, outFilename, ext).value
      == cfg.doctreedir + ["umlet", CacheKey(cfg.srcdir, input, ext.sha1).value, outFilename]
    ensures RelativeTo(ExportPathOf(cfg, input, outFilename, ext).value, cfg.doctreedir).Some?
  {
    var key := CacheKey(cfg.srcdir, input, ext.sha1).value;
    ExportLayout(cfg.doctreedir, key, outFilename);
    assert cfg.doctreedir + ["umlet", key, outFilename] == cfg.doctreedir + ["umlet", key, outFilename][..];
  }

  /** `_umlet_export` on file system `es` at time `now`, step by step. A
      successful run returns the export path, which then exists; no path ever
      disappears, and the only new ones are the export path and the directories
      above it. */
  function ExportStep(es: Entries, cfg: Config, input: Path, outFilename: string, ext: Externals, now: int): (run: ExportRun)
    ensures run.result.Ok? ==> ExportPathOf(cfg, input, outFilename, ext) == Ok(run.result.value) && run.result.value in run.entries
    ensures forall p :: p in es ==> p in run.entries
    ensures forall p :: p in run.entries && p !in es ==>
      ExportPathOf(cfg, input, outFilename, ext).Ok? &&
      (p == ExportPathOf(cfg, input, outFilename, ext).value || p in Prefixes(Parent(ExportPathOf(cfg, input, outFilename, ext).value)))
  {
    match ExportPathOf(cfg, input, outFilename, ext)
    case Err(e) => ExportRun(Err(e), es, None)
    case Ok(output) =>
      match MakeDirs(es, Parent(output), now)
      case None => ExportRun(Err(MkdirFailed(Parent(output))), es, None)
      case Some(es1) =>
        if RelativeTo(output, cfg.doctreedir).None? then ExportRun(Err(NotRelative(output, cfg.doctreedir)), es1, None)
        else CacheStep(es1, cfg, input, output, ext, now)
  }

  /** `_umlet_export` once the cache directory exists: reuse the stored image, or
      find the executable and convert. Only the output path may change, and only
      when the converter runs. */
  function CacheStep(es: Entries, cfg: Config, input: Path, output: Path, ext: Externals, now: int): (run: ExportRun)
    ensures run.result.Ok? ==> run.result.value == output && output in run.entries
    ensures run.invoked.None? ==> run.entries == es
    ensures forall p :: p in es ==> p in run.entries && (p != output ==> run.entries[p] == es[p])
    ensures forall p :: p in run.entries ==> p in es || p == output
  {
    if output in es && input !in es then ExportRun(Err(StatFailed(input)), es, None)
    else if Fresh(es, output, input) then ExportRun(Ok(output), es, None)
    else match ResolveBinary(cfg.binaryPath, ext.isWindows, ext.pathLookup)
      case Err(e) => ExportRun(Err(e), es, None)
      case Ok(binary) => ConvertStep(es, UmletArgs(binary, FormatArg(output), input, output), output, ext, now)
  }

  /** Running the converter with `args`, and classifying what it did: the
      converter was started with `args`, only the output may have been written,
      and success means the output exists. */
  function ConvertStep(es: Entries, args: seq<string>, output: Path, ext: Externals, now: int): (run: ExportRun)
    ensures run.invoked == Some(args)
    ensures run.result.Ok? ==> run.result.value == output && output in run.entries
    ensures forall p :: p in es ==> p in run.entries && (p != output ==> run.entries[p] == es[p])
    ensures forall p :: p in run.entries ==> p in es || p == output
  {
    var proc := ext.umlet(args);
    var es2 := if proc.Exited? && proc.wroteOutput then es[output := File(now)] else es;
    ExportRun(Classify(args, proc, output in es2, output), es2, Some(args))
  }

  /** `_umlet_export`. */
  method Export(fs: FileSystem, cfg: Config, input: Path, outFilename: string, ext: Externals, now: int)
    returns (r: Result<Path, Error>, ghost invoked: Option<seq<string>>)
    modifies fs
    ensures ExportStep(old(fs.entries), cfg, input, outFilename, ext, now) == ExportRun(r, fs.entries, invoked)
  {
    var key := CacheKey(cfg.srcdir, input, ext.sha1);
    if key.Err? {
      return Err(key.error), None;
    }
    var output := ExportPath(cfg.doctreedir, key.value, outFilename);
    var made := fs.Mkdir(Parent(output), now);
    if !made {
      return Err(MkdirFailed(Parent(output))), None;
    }
    var exportRel := RelativeTo(output, cfg.doctreedir);
    if exportRel.None? {
      return Err(NotRelative(output, cfg.doctreedir)), None;
    }
    r, invoked := ExportCached(fs, cfg, input, output, ext, now);
  }

  /** The part of `_umlet_export` after `mkdir`. */
  method ExportCached(fs: FileSystem, cfg: Config, input: Path, output: Path, ext: Externals, now: int)
    returns (r: Result<Path, Error>, ghost invoked: Option<seq<string>>)
    modifies fs
    ensures CacheStep(old(fs.entries), cfg, input, output, ext, now) == ExportRun(r, fs.entries, invoked)
  {
    var format := FormatArg(output);
    if fs.Exists(output) {
      if !fs.Exists(input) {
        return Err(StatFailed(input)), None;
      }
      if fs.entries[output].mtime > fs.entries[input].mtime {
        return Ok(output), None;
      }
    }
    var binary := ResolveBinary(cfg.binaryPath, ext.isWindows, ext.pathLookup);
    if binary.Err? {
      return Err(binary.error), None;
    }
    var args := UmletArgs(binary.value, format, input, output);
    invoked := Some(args);
    var proc := ext.umlet(args);
    if proc.Exited? && proc.wroteOutput {
      fs.Write(output, now);
    }
    r := Classify(args, proc, fs.Exists(output), output);
  }

  /** Every path on the file system is older than `now`: the clock moves forward. */
  predicate Before(es: Entries, now: int) {
    forall p :: p in es ==> es[p].mtime < now
  }

  /** Once the cache directory can be made, `_umlet_export` is the cache step on
      the file system `mkdir` leaves, which keeps every existing path and makes
      every directory above the output. */
  lemma AfterMkdir(es: Entries, cfg: Config, input: Path, outFilename: string, ext: Externals, now: int)
    returns (output: Path, es1: Entries)
    requires ExportPathOf(cfg, input, outFilename, ext).Ok?
    requires !MkdirBlocked(es, Parent(ExportPathOf(cfg, input, outFilename, ext).value))
    requires cfg.doctreedir <= ExportPathOf(cfg, input, outFilename, ext).value
    ensures output == ExportPathOf(cfg, input, outFilename, ext).value
    ensures MakeDirs(es, Parent(output), now) == Some(es1)
    ensures ExportStep(es, cfg, input, outFilename, ext, now) == CacheStep(es1, cfg, input, output, ext, now)
    ensures forall p :: p in es ==> p in es1 && es1[p] == es[p]
    ensures output in es1 <==> output in es
    ensures forall q :: q in Prefixes(Parent(output)) ==> q in es1 && es1[q].Dir? && q != output
  {
    output := ExportPathOf(cfg, input, outFilename, ext).value;
    es1 := MakeDirs(es, Parent(output), now).value;
    assert output !in Prefixes(Parent(output));
  }

  /** The cache decision. For a source that exists and an export path below the
      doctree directory (`ExportBelowDoctree`), once the cache directory can be
      made: the directory exists afterwards, hit or miss; the stored image is
      returned without running the converter exactly when it exists and is
      strictly newer than the source; otherwise the converter is started with the
      argument vector for this source and output. */
  lemma CacheDecision(es: Entries, cfg: Config, input: Path, outFilename: string, ext: Externals, now: int)
    requires input in es
    requires ExportPathOf(cfg, input, outFilename, ext).Ok?
    requires !MkdirBlocked(es, Parent(ExportPathOf(cfg, input, outFilename, ext).value))
    requires cfg.doctreedir <= ExportPathOf(cfg, input, outFilename, ext).value
    ensures var output := ExportPathOf(cfg, input, outFilename, ext).value;
      var run := ExportStep(es, cfg, input, outFilename, ext, now);
      && (forall q :: q in Prefixes(Parent(output)) ==> q in run.entries && run.entries[q].Dir?)
      && (run.result == Ok(output) && run.invoked.None? <==> Fresh(es, output, input))
      && (!Fresh(es, output, input) && ResolveBinary(cfg.binaryPath, ext.isWindows, ext.pathLookup).Ok? ==>
            run.invoked == Some(UmletArgs(ResolveBinary(cfg.binaryPath, ext.isWindows, ext.pathLookup).value,
                                          FormatArg(output), input, output)))
  {
    var output, es1 := AfterMkdir(es, cfg, input, outFilename, ext, now);
    assert Fresh(es1, output, input) <==> Fresh(es, output, input);
  }

  /** A second build with the source untouched reuses the image of the first and
      leaves it as it was: the converter does not run and nothing changes. This
      needs a converter that writes the output whenever it reports success. */
  lemma RebuildUnchanged(es: Entries, cfg: Config, input: Path, outFilename: string, ext: Externals, now1: int, now2: int)
    requires Before(es, now1) && now1 <= now2
    requires input in es
    requires ExportPathOf(cfg, input, outFilename, ext).Ok?
    requires ExportPathOf(cfg, input, outFilename, ext).value != input
    requires ExportStep(es, cfg, input, outFilename, ext, now1).result.Ok?
    requires ExportStep(es, cfg, input, outFilename, ext, now1).invoked.Some? ==>
      var proc := ext.umlet(ExportStep(es, cfg, input, outFilename, ext, now1).invoked.value);
      proc.Exited? && proc.wroteOutput
    ensures var run1 := ExportStep(es, cfg, input, outFilename, ext, now1);
      ExportStep(run1.entries, cfg, input, outFilename, ext, now2) == ExportRun(run1.result, run1.entries, None)
  {
    var run1 := ExportStep(es, cfg, input, outFilename, ext, now1);
    var output := ExportPathOf(cfg, input, outFilename, ext).value;
    assert !MkdirBlocked(es, Parent(output)) && cfg.doctreedir <= output;
    var _, es1 := AfterMkdir(es, cfg, input, outFilename, ext, now1);
    assert es1[input] == es[input];
    ReusedAfterward(es1, cfg, input, output, ext, now1);
    var es2 := run1.entries;
    assert Fresh(es2, output, input) && run1.result == Ok(output);
    assert forall q :: q in Prefixes(Parent(output)) ==> q in es2 && es2[q].Dir?;
    var _, es3 := AfterMkdir(es2, cfg, input, outFilename, ext, now2);
    MakeDirsIdle(es2, Parent(output), now2);
    assert es3 == es2;
  }

  /** A successful cache step leaves an image newer than its source, and keeps
      or overwrites with a file only the output path. */
  lemma ReusedAfterward(es1: Entries, cfg: Config, input: Path, output: Path, ext: Externals, now: int)
    requires input in es1 && es1[input].mtime < now && output != input
    requires CacheStep(es1, cfg, input, output, ext, now).result.Ok?
    requires CacheStep(es1, cfg, input, output, ext, now).invoked.Some? ==>
      var proc := ext.umlet(CacheStep(es1, cfg, input, output, ext, now).invoked.value);
      proc.Exited? && proc.wroteOutput
    ensures var run := CacheStep(es1, cfg, input, output, ext, now);
      && run.result == Ok(output)
      && Fresh(run.entries, output, input)
      && (forall p :: p in es1 && p != output ==> p in run.entries && run.entries[p] == es1[p])
  {
    var run := CacheStep(es1, cfg, input, output, ext, now);
    if !Fresh(es1, output, input) {
      var binary := ResolveBinary(cfg.binaryPath, ext.isWindows, ext.pathLookup).value;
      var args := UmletArgs(binary, FormatArg(output), input, output);
      assert run == ConvertStep(es1, args, output, ext, now);
      assert run.entries == es1[output := File(now)];
    }
  }

  /** A build after the source was replaced by a newer one runs the converter and,
      when it exits 0 having written its output (whatever it prints), leaves an
      image strictly newer than the previous one. */
  lemma RebuildAfterChange(es: Entries, cfg: Config, input: Path, outFilename: string, ext: Externals, now: int)
    requires Before(es, now)
    requires input in es
    requires ExportPathOf(cfg, input, outFilename, ext).Ok?
    requires !MkdirBlocked(es, Parent(ExportPathOf(cfg, input, outFilename, ext).value))
    requires cfg.doctreedir <= ExportPathOf(cfg, input, outFilename, ext).value
    requires var output := ExportPathOf(cfg, input, outFilename, ext).value;
      output in es && es[input].mtime >= es[output].mtime
    requires ResolveBinary(cfg.binaryPath, ext.isWindows, ext.pathLookup).Ok?
    requires var output := ExportPathOf(cfg, input, outFilename, ext).value;
      var proc := ext.umlet(UmletArgs(ResolveBinary(cfg.binaryPath, ext.isWindows, ext.pathLookup).value, FormatArg(output), input, output));
      proc.Exited? && proc.returncode == 0 && proc.wroteOutput
    ensures var output := ExportPathOf(cfg, input, outFilename, ext).value;
      var run := ExportStep(es, cfg, input, outFilename, ext, now);
      && run.result == Ok(output)
      && run.invoked.Some?
      && output in run.entries && run.entries[output].mtime > es[output].mtime
  {
    var output, es1 := AfterMkdir(es, cfg, input, outFilename, ext, now);
    assert es1[input] == es[input] && es1[output] == es[output];
    assert !Fresh(es1, output, input);
    var binary := ResolveBinary(cfg.binaryPath, ext.isWindows, ext.pathLookup).value;
    var args := UmletArgs(binary, FormatArg(output), input, output);
    assert CacheStep(es1, cfg, input, output, ext, now) == ConvertStep(es1, args, output, ext, now);
    assert ConvertStep(es1, args, output, ext, now).entries == es1[output := File(now)];
  }

  /** The output file is not written atomically: a converter that fails after
      writing it leaves a file the next build takes for a valid cached image. */
  lemma FailedConversionLeavesCacheHit(es: Entries, cfg: Config, input: Path, outFilename: string, ext: Externals, now1: int, now2: int)
    requires Before(es, now1) && now1 <= now2
    requires input in es
    requires ExportPathOf(cfg, input, outFilename, ext).Ok?
    requires ExportPathOf(cfg, input, outFilename, ext).value != input
    requires ExportStep(es, cfg, input, outFilename, ext, now1).invoked.Some?
    requires var proc := ext.umlet(ExportStep(es, cfg, input, outFilename, ext, now1).invoked.value);
      proc.Exited? && proc.returncode != 0 && proc.wroteOutput
    ensures var run1 := ExportStep(es, cfg, input, outFilename, ext, now1);
      && run1.result.Err? && run1.result.error.ConverterFailed?
      && ExportStep(run1.entries, cfg, input, outFilename, ext, now2).result == Ok(ExportPathOf(cfg, input, outFilename, ext).value)
      && ExportStep(run1.entries, cfg, input, outFilename, ext, now2).invoked.None?
  {
    var run1 := ExportStep(es, cfg, input, outFilename, ext, now1);
    var output := ExportPathOf(cfg, input, outFilename, ext).value;
    assert !MkdirBlocked(es, Parent(output)) && cfg.doctreedir <= output;
    var _, es1 := AfterMkdir(es, cfg, input, outFilename, ext, now1);
    assert es1[input] == es[input];
    assert run1 == CacheStep(es1, cfg, input, output, ext, now1);
    FailedStepLeavesFresh(es1, cfg, input, output, ext, now1);
    var es2 := run1.entries;
    assert forall q :: q in Prefixes(Parent(output)) ==> q in es2 && es2[q].Dir?;
    var _, es3 := AfterMkdir(es2, cfg, input, outFilename, ext, now2);
    MakeDirsIdle(es2, Parent(output), now2);
    assert es3 == es2;
    assert CacheStep(es2, cfg, input, output, ext, now2) == ExportRun(Ok(output), es2, None);
  }

  /** A cache step whose converter exits non-zero after writing the output raises,
      and leaves an image newer than its source behind. */
  lemma FailedStepLeavesFresh(es1: Entries, cfg: Config, input: Path, output: Path, ext: Externals, now: int)
    requires input in es1 && es1[input].mtime < now && output != input
    requires CacheStep(es1, cfg, input, output, ext, now).invoked.Some?
    requires var proc := ext.umlet(CacheStep(es1, cfg, input, output, ext, now).invoked.value);
      proc.Exited? && proc.returncode != 0 && proc.wroteOutput
    ensures var run := CacheStep(es1, cfg, input, output, ext, now);
      run.result.Err? && run.result.error.ConverterFailed? && Fresh(run.entries, output, input)
  {
    var binary := ResolveBinary(cfg.binaryPath, ext.isWindows, ext.pathLookup).value;
    var args := UmletArgs(binary, FormatArg(output), input, output);
    assert CacheStep(es1, cfg, input, output, ext, now) == ConvertStep(es1, args, output, ext, now);
    assert ConvertStep(es1, args, output, ext, now).entries == es1[output := File(now)];
  }

  /** What `handle` did with the node. */
  datatype Handled = SourceMissing | Converted(destpath: string)

  /** The source path of the conversion: the candidate for the rule's source MIME
      type, else the "*" candidate; KeyError when neither is present. */
  function SourcePath(candidates: map<string, string>, from: string): (r: Result<string, Error>)
    ensures from in candidates ==> r == Ok(candidates[from])
    ensures from !in candidates && "*" in candidates ==> r == Ok(candidates["*"])
    ensures from !in candidates && "*" !in candidates ==> r == Err(MissingCandidate("*"))
  {
    if from in candidates then Ok(candidates[from])
    else if "*" in candidates then Ok(candidates["*"])
    else Err(MissingCandidate("*"))
  }

  /** The candidate `handle` overwrites: "*" when there is one, else the target MIME type. */
  function RewrittenKey(candidates: map<string, string>, to: string): string {
    if "*" in candidates then "*" else to
  }

  /** The candidates after `handle`: one entry set to the converted image, all
      others as they were. */
  function Rewrite(candidates: map<string, string>, to: string, destpath: string): (c: map<string, string>)
    ensures c.Keys == candidates.Keys + {RewrittenKey(candidates, to)}
    ensures c[RewrittenKey(candidates, to)] == destpath
    ensures forall k :: k in candidates && k != RewrittenKey(candidates, to) ==> c[k] == candidates[k]
  {
    candidates[RewrittenKey(candidates, to) := destpath]
  }

  /** `handle` for the conversion rule (from, to) Sphinx chose for the node. */
  method Handle(node: Element, rule: (string, string), fs: FileSystem, cfg: Config, ext: Externals, now: int)
    returns (r: Result<Handled, Error>)
    modifies node`candidates, node`uri, fs
    ensures var src := SourcePath(old(node.candidates), rule.0);
      src.Err? ==> r == Err(src.error)
    ensures var src := SourcePath(old(node.candidates), rule.0);
      src.Ok? && Append(cfg.srcdir, src.value) !in old(fs.entries) ==> r == Ok(SourceMissing)
    ensures r.Err? || r == Ok(SourceMissing) ==>
      node.candidates == old(node.candidates) && node.uri == old(node.uri)
    ensures r == Ok(SourceMissing) || SourcePath(old(node.candidates), rule.0).Err? ==>
      fs.entries == old(fs.entries)
    ensures var src := SourcePath(old(node.candidates), rule.0);
      src.Ok? && Append(cfg.srcdir, src.value) in old(fs.entries) ==>
        var run := ExportStep(old(fs.entries), cfg, Append(cfg.srcdir, src.value), ext.filenameFor(src.value, rule.1), ext, now);
        && fs.entries == run.entries
        && (run.result.Err? ==> r == Err(run.result.error))
        && (run.result.Ok? ==>
              && r == Ok(Converted(AbsStr(run.result.value)))
              && node.uri == AbsStr(run.result.value)
              && node.candidates == Rewrite(old(node.candidates), rule.1, AbsStr(run.result.value)))
  {
    var src := SourcePath(node.candidates, rule.0);
    if src.Err? {
      return Err(src.error);
    }
    var srcpath := src.value;
    var absSrcpath := Append(cfg.srcdir, srcpath);
    if !fs.Exists(absSrcpath) {
      return Ok(SourceMissing);
    }
    var outFilename := ext.filenameFor(srcpath, rule.1);
    var exported, _ := Export(fs, cfg, absSrcpath, outFilename, ext, now);
    if exported.Err? {
      return Err(exported.error);
    }
    var destpath := AbsStr(exported.value);
    if "*" in node.candidates {
      node.candidates := node.candidates["*" := destpath];
    } else {
      node.candidates := node.candidates[rule.1 := destpath];
    }
    node.uri := destpath;
    return Ok(Converted(destpath));
  }
}
