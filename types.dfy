/** The records the three handlers share. */
module Types {

  /** A caret (`start == end`) or a selected range of the text. */
  datatype Selection = Selection(start: int, end: int)

  /** What an edit handler receives: the new and the previous text and selection. */
  datatype TextState = TextState(text: string, prevText: string, selection: Selection, prevSelection: Selection)
}
