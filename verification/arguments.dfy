/**
 * `Config::build`: the command line `<program> <operator> <filename> ...`
 * becomes the task to run. The program name and anything after the file
 * name are ignored.
 */
module Arguments {
  import opened Wrappers

  datatype Task = Format(filename: string) | Assign(filename: string)

  datatype Config = Config(task: Task)

  /**
   * Why the arguments were refused. The first two are the source's error
   * strings; an operator other than `assign` or `format` makes the source
   * panic, kept here as an error of its own.
   */
  datatype ArgError = NoOperator | NoFilename | UnrecognizedOperation(operator: string)

  /** The operators `Config::build` knows. */
  predicate IsOperator(op: string) {
    op == "assign" || op == "format"
  }

  /** The text the source reports for each refusal. */
  function Message(e: ArgError): (msg: string)
    ensures e.NoOperator? <==> msg == "no operator specified"
    ensures e.NoFilename? <==> msg == "no filename supplied"
    ensures e.UnrecognizedOperation? <==> msg == "unrecognized operation"
  {
    match e
    case NoOperator => "no operator specified"
    case NoFilename => "no filename supplied"
    case UnrecognizedOperation(_) => "unrecognized operation"
  }

  function Build(args: seq<string>): (r: Result<Config, ArgError>)
    ensures r.Ok? <==> |args| >= 3 && IsOperator(args[1])
    ensures r.Ok? ==> r.value.task.filename == args[2]
    ensures r.Ok? ==> (r.value.task.Assign? <==> args[1] == "assign")
    ensures r == Err(NoOperator) <==> |args| < 2
    ensures r == Err(NoFilename) <==> |args| == 2 && IsOperator(args[1])
    ensures r.Err? && r.error.UnrecognizedOperation? <==> |args| >= 2 && !IsOperator(args[1])
    ensures r.Err? && r.error.UnrecognizedOperation? ==> r.error.operator == args[1]
  {
    if |args| < 2 then
      Err(NoOperator)
    else if args[1] == "assign" then
      if |args| < 3 then Err(NoFilename) else Ok(Config(Assign(args[2])))
    else if args[1] == "format" then
      if |args| < 3 then Err(NoFilename) else Ok(Config(Format(args[2])))
    else
      Err(UnrecognizedOperation(args[1]))
  }

  /** The operator word that selects `task`. */
  function Operator(task: Task): (op: string)
    ensures IsOperator(op)
    ensures op == "assign" <==> task.Assign?
  {
    match task
    case Assign(_) => "assign"
    case Format(_) => "format"
  }

  /** A command line that asks for `task`. */
  function CommandLine(program: string, task: Task): (args: seq<string>)
    ensures |args| == 3 && args[0] == program && args[2] == task.filename
  {
    [program, Operator(task), task.filename]
  }

  /** Every task can be asked for on the command line, under any program name. */
  lemma BuildCommandLine(program: string, task: Task)
    ensures Build(CommandLine(program, task)) == Ok(Config(task))
  {
  }

  /** Arguments after the file name make no difference. */
  lemma BuildIgnoresTrailing(args: seq<string>, extra: seq<string>)
    requires |args| >= 3
    ensures Build(args + extra) == Build(args)
  {
    assert (args + extra)[1] == args[1] && (args + extra)[2] == args[2];
  }

  /** The first argument, the program name, makes no difference. */
  lemma BuildIgnoresProgram(program: string, other: string, rest: seq<string>)
    ensures Build([program] + rest) == Build([other] + rest)
  {
    if |rest| > 0 {
      assert ([program] + rest)[1] == rest[0] == ([other] + rest)[1];
    }
    if |rest| > 1 {
      assert ([program] + rest)[2] == rest[1] == ([other] + rest)[2];
    }
  }
}
