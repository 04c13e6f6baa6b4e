/** The part of a registered command that parsing and typo recovery look at. */
module CommandSpecs {
  import opened Options

  /** `paths` is the command's path followed by its aliases; `repeatable` are the flags it declares
      repeatable, if it declares any. */
  datatype CommandSpec = CommandSpec(
    paths: seq<seq<string>>, repeatable: Option<set<string>>, destructive: bool, hidden: bool)
}
