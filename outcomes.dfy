/** Optional values, and the results of the operations that can abort the tool.
    Every `unwrap` and `panic!` of the program becomes an `Err` carrying a `Failure`. */
module Outcomes {

  datatype Option<+T> = None | Some(value: T)

  /** Why a run of the tool aborts. */
  datatype Failure =
    | MissingColorType(path: string)    // the inner suffix of a template name is neither `hex` nor `rrggbbaa`
    | UnstrippableSuffix(path: string)  // `.cscheme` or `.<tag>` could not be stripped from a template name
    | MissingHashPrefix(color: string)  // an `rrggbbaa` colour code was asked of a value without a leading `#`

  datatype Result<+T> = Ok(value: T) | Err(error: Failure)
}
