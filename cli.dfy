// Command-line handling of the analysis program:
//   analysis <input-handle> <output-handle> [output_inputdata]
// argv[0] is the program name, so argc is |argv|.

module Cli {

  /** What the program takes from its arguments. */
  datatype Config = Config(inputName: string, outputName: string, outputFftOnly: bool)

  /** Either the process group is aborted for want of arguments, or the run goes ahead. */
  datatype Parsed = NotEnoughArguments | Proceed(config: Config)

  /**
   * Fewer than three argv entries abort. The optional fourth entry turns
   * passthrough of the original fields on when it is exactly "0"; any other
   * value, or no fourth entry, leaves the output FFT-only.
   */
  function ParseArgs(argv: seq<string>): (r: Parsed)
    ensures r.NotEnoughArguments? <==> |argv| < 3
    ensures r.Proceed? ==> r.config.inputName == argv[1] && r.config.outputName == argv[2]
    ensures r.Proceed? ==> (!r.config.outputFftOnly <==> |argv| >= 4 && argv[3] == "0")
  {
    if |argv| < 3 then
      NotEnoughArguments
    else
      var outputFftOnly := if |argv| >= 4 && argv[3] == "0" then false else true;
      Proceed(Config(argv[1], argv[2], outputFftOnly))
  }
}
