/**
 * The assembler's syntax errors. The Rust enum only carries data for the
 * coloured console messages, which are not modelled.
 */
module ErrHandler {

  /**
   * `LineError`, with every line number as a 0-based source line index.
   * `LabelMoreColon` and `SectionMismatch` are raised by the parser but are
   * missing from the Rust enum; they are added here so that the parser's
   * error paths can be stated.
   */
  datatype LineError =
    | LabelMultiple(line: nat)
    | OnlyDataSection
    | NoSectionDecl
    | StartWithAmp(line: nat)
    | StartWithHash(line: nat)
    | WrongSection(text: string, line: nat)
    | WrongArgs(text: string, line: nat)
    | LabelWhitespace(text: string, line: nat)
    | Unrecognized(text: string, line: nat)
    | LabelMoreColon(text: string, line: nat)
    | SectionMismatch(line: nat)
}
