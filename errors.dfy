/** Every exception the converter can raise, as a value. The first six are the
    plugin's own `UMLetError`; the rest are Python's, raised by what it calls. */
module Errors {

  import opened Paths

  datatype Error =
    | UnsupportedFormat(format: string)                    // format not in VALID_OUTPUT_FORMATS
    | InvalidForBuilder(format: string, builder: string)   // format known, MIME type not embeddable
    | NoExecutable                                         // neither configured nor on PATH
    | SpawnFailed(command: string, oserror: string)        // the process did not start
    | ConverterFailed(command: string, stderr: string, stdout: string, returncode: int)
    | NoOutputFile(command: string, stderr: string, stdout: string)
    | UnexpectedBoolean                                    // ValueError of boolean_spec
    | NoImageNode                                          // `image` unbound after the search in run
    | MissingCandidate(key: string)                        // KeyError on node["candidates"]
    | NotRelative(path: Path, base: Path)                  // ValueError of relative_to
    | StatFailed(path: Path)                               // FileNotFoundError of stat
    | MkdirFailed(path: Path)                              // OSError of mkdir
  {
    predicate IsUMLetError() {
      UnsupportedFormat? || InvalidForBuilder? || NoExecutable? ||
      SpawnFailed? || ConverterFailed? || NoOutputFile?
    }
  }
}
