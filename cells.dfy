/** Values read from a workbook: the cells of its first sheet. */
module Cells {

  /** An optional value, used for the source's `None`-initialised variables
      and for parses that can fail. */
  datatype Option<T> = None | Some(value: T)

  /** One scalar as the spreadsheet reader produces it. Only `Text` cells are
      touched by sanitisation; numbers, booleans and empty cells pass through.
      Values the model does not interpret (floats, dates, times) are `Other`,
      told apart only by an opaque tag. */
  datatype Cell =
    | Text(s: string)
    | Number(n: int)
    | Flag(b: bool)
    | Empty
    | Other(tag: nat)

  /** The first sheet of one workbook: its column names and its data rows. */
  datatype Workbook = Workbook(header: seq<Cell>, rows: seq<seq<Cell>>)
}
