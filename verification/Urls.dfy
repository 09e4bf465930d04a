/** URLs seen only through their parser, which gives the text a parsed URL displays. */
module Urls {
  import opened Wrappers

  datatype Parser = Parser(parse: string -> Option<string>) {

    /** What a parsed URL displays parses to itself. */
    ghost predicate Stable() {
      forall s :: parse(s).Some? ==> parse(parse(s).value) == parse(s)
    }
  }
}
