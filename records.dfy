/**
 * The structural record the analyzer produces: one class of a Python file, or
 * one framework-decorated construct of a TypeScript file.
 */
module Records {

  /** `CodeElement`, the seven-field record. The field the source calls `type`
      is `kind` here. */
  datatype CodeElement = CodeElement(
    name: string,
    kind: string,
    decorators: seq<string>,
    imports: seq<string>,
    methods: seq<string>,
    lineNumber: int,
    dependencies: seq<string>)

  /** The errors an analysis can raise to its caller. */
  datatype Error =
    | IndexError      // `lines[i+1]` past the last line
    | AttributeError  // a method the analyzer does not define
    | TypeError       // keyword arguments a record class does not accept
}
