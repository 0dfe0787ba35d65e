/** Running the UMLet command-line converter: which executable, with which
    arguments, and how its outcome is classified. */
module Invoke {

  import opened Wrappers
  import opened Paths
  import opened Errors
  import opened Rules

  /** The executable looked up on PATH: "Umlet.exe" on Windows, "umlet.sh" elsewhere. */
  function BinaryName(isWindows: bool): (n: string)
    ensures IsComponent(n)
  {
    if isWindows then "Umlet.exe" else "umlet.sh"
  }

  /** `shutil.which`, given the PATH lookup as a table from name to full path. */
  function Which(pathLookup: map<string, string>, name: string): Option<string> {
    if name in pathLookup then Some(pathLookup[name]) else None
  }

  /** The executable to run: a configured `umlet_binary_path` wins; otherwise the
      PATH lookup of the platform's default name; otherwise an error. */
  function ResolveBinary(configured: Option<string>, isWindows: bool, pathLookup: map<string, string>): (r: Result<string, Error>)
    ensures Truthy(configured) ==> r == Ok(configured.value)
    ensures !Truthy(configured) ==>
      (r.Ok? <==> Truthy(Which(pathLookup, BinaryName(isWindows)))) &&
      (r.Ok? ==> r.value == pathLookup[BinaryName(isWindows)])
    ensures r.Err? ==> r.error == NoExecutable && r.error.IsUMLetError()
  {
    var inPath := Which(pathLookup, BinaryName(isWindows));
    if Truthy(configured) then Ok(configured.value)
    else if Truthy(inPath) then Ok(inPath.value)
    else Err(NoExecutable)
  }

  /** The `-format` value: the output file's suffix without its dot. */
  function FormatArg(output: Path): (f: string)
    ensures '.' !in f
    ensures f != "" ==> |f| < |Name(output)| - 1 && Name(output)[|Name(output)| - |f| - 1..] == "." + f
  {
    var suffix := Suffix(Name(output));
    if suffix == "" then "" else suffix[1..]
  }

  lemma FormatArgOfExtension(output: Path, stem: string, ext: string)
    requires output != [] && Name(output) == stem + "." + ext
    requires stem != "" && ext != "" && '.' !in ext
    ensures FormatArg(output) == ext
  {
    SuffixOfExtension(stem, ext);
  }

  /** The argument vector handed to the converter. */
  function UmletArgs(binary: string, format: string, input: Path, output: Path): (args: seq<string>)
    ensures |args| == 5 && args[0] == binary
  {
    [binary, "-action=convert", "-format=" + format, "-filename=" + AbsStr(input), "-output=" + AbsStr(output)]
  }


  /** The value of the first of `options` that starts with `flag`: a decoder of
      argument vectors, the partner of `UmletArgs`. */
  function OptionValue(options: seq<string>, flag: string): (r: Option<string>)
    ensures r.None? <==> forall i :: 0 <= i < |options| ==> !(flag <= options[i])
    ensures r.Some? ==>
      exists i :: 0 <= i < |options| && options[i] == flag + r.value && forall j :: 0 <= j < i ==> !(flag <= options[j])
  {
    if options == [] then None
    else if flag <= options[0] then
      assert options[0] == flag + options[0][|flag|..];
      Some(options[0][|flag|..])
    else
      var r := OptionValue(options[1..], flag);
      assert forall i :: 1 <= i < |options| ==> options[i] == options[1..][i - 1];
      r
  }

  /** How the converter reads an option: after the program name, the first
      argument that starts with `flag`. */
  function ArgValue(args: seq<string>, flag: string): Option<string> {
    if args == [] then None else OptionValue(args[1..], flag)
  }

  /** The converter receives the convert action, the format, the source and the
      output path, each under its own option. */
  lemma ArgsCarryRequest(binary: string, format: string, input: Path, output: Path)
    ensures ArgValue(UmletArgs(binary, format, input, output), "-action=") == Some("convert")
    ensures ArgValue(UmletArgs(binary, format, input, output), "-format=") == Some(format)
    ensures ArgValue(UmletArgs(binary, format, input, output), "-filename=") == Some(AbsStr(input))
    ensures ArgValue(UmletArgs(binary, format, input, output), "-output=") == Some(AbsStr(output))
  {
    var args := UmletArgs(binary, format, input, output);
    var a1, a2, a3, a4 := args[1], args[2], args[3], args[4];
    assert a1[..8] == "-action=" && a1[8..] == "convert";
    assert a2[..8] == "-format=" && a2[8..] == format;
    assert a3[..10] == "-filename=" && a3[10..] == AbsStr(input);
    assert a4[..8] == "-output=" && a4[8..] == AbsStr(output);
    assert !("-format=" <= a1) && !("-filename=" <= a1) && !("-output=" <= a1) by {
      assert a1[1] == 'a';
    }
    assert !("-filename=" <= a2) && !("-output=" <= a2) by {
      assert a2[1] == 'f' && a2[2] == 'o';
    }
    assert !("-output=" <= a3) by {
      assert a3[1] == 'f';
    }
    var o1, o2, o3, o4 := args[1..], args[2..], args[3..], args[4..];
    assert o1[1..] == o2 && o2[1..] == o3 && o3[1..] == o4;
    assert o1[0] == a1 && o2[0] == a2 && o3[0] == a3 && o4[0] == a4;
    assert OptionValue(o2, "-format=") == Some(format);
    assert OptionValue(o1, "-format=") == OptionValue(o2, "-format=");
    assert OptionValue(o3, "-filename=") == Some(AbsStr(input));
    assert OptionValue(o1, "-filename=") == OptionValue(o2, "-filename=") == OptionValue(o3, "-filename=");
    assert OptionValue(o4, "-output=") == Some(AbsStr(output));
    assert OptionValue(o2, "-output=") == OptionValue(o3, "-output=") == OptionValue(o4, "-output=");
    assert OptionValue(o1, "-output=") == OptionValue(o2, "-output=");
  }

  /** `" ".join(args)`, the command line quoted in error messages. */
  function Command(args: seq<string>): (c: string)
    ensures args != [] ==> args[0] <= c
  {
    if args == [] then "" else if |args| == 1 then args[0] else args[0] + " " + Command(args[1..])
  }

  /** What `subprocess.run` reports: the process could not be started, or it
      exited with a code and its captured output, having written the output
      file or not. */
  datatype Proc =
    | SpawnError(oserror: string)
    | Exited(returncode: int, stdout: string, stderr: string, wroteOutput: bool)

  /** The outcome of a conversion, from the process result and whether the
      output file exists afterwards. */
  function Classify(args: seq<string>, proc: Proc, outputExists: bool, output: Path): (r: Result<Path, Error>)
    ensures r.Ok? <==> proc.Exited? && proc.returncode == 0 && outputExists
    ensures r.Ok? ==> r.value == output
    ensures r.Err? ==> (r.error.SpawnFailed? || r.error.ConverterFailed? || r.error.NoOutputFile?) && r.error.command == Command(args)
    ensures r.Err? ==> r.error.IsUMLetError()
    ensures proc.SpawnError? ==> r.Err? && r.error.SpawnFailed? && r.error.oserror == proc.oserror
    ensures proc.Exited? && proc.returncode != 0 ==>
      r.Err? && r.error.ConverterFailed? && r.error.returncode == proc.returncode &&
      r.error.stdout == proc.stdout && r.error.stderr == proc.stderr
    ensures proc.Exited? && proc.returncode == 0 && !outputExists ==>
      r.Err? && r.error.NoOutputFile? && r.error.stdout == proc.stdout && r.error.stderr == proc.stderr
  {
    match proc
    case SpawnError(e) => Err(SpawnFailed(Command(args), e))
    case Exited(code, out, err, _) =>
      if code != 0 then Err(ConverterFailed(Command(args), err, out, code))
      else if !outputExists then Err(NoOutputFile(Command(args), err, out))
      else Ok(output)
  }
}
