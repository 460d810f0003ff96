/**
 Optional values and the conversion's error outcomes.
 */
module Outcomes {

  datatype Option<+T> = None | Some(value: T)

  /** Why a conversion stops without producing a calendar file. */
  datatype ConversionError =
    | MissingCode      // no staff code entered: the converter does nothing
    | SheetShape       // the grid lacks the title cell or the three header rows
    | TitleFormat      // the title has no "<era>年<month>月"
    | NoMatch          // the staff code matched no cell

  datatype Result<+T> = Ok(value: T) | Err(error: ConversionError)
}
