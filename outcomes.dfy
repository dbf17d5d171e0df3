/** Optional values, results, and the errors the server raises. */
module Outcomes {

  datatype Option<+T> = None | Some(value: T)

  datatype Result<+T> = Ok(value: T) | Err(error: Failure)

  /** The exceptions that leave the core, by the class the source raises. */
  datatype Failure =
    | HttpError(status: int, detail: string)  // fastapi.HTTPException(status_code, detail)
    | ToolError(message: string)              // mcp ToolError
    | ResourceError(message: string)          // mcp ResourceError
    | TypeError(message: string)              // a Python TypeError that is not caught
}
