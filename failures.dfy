/** Optional values, the Python exceptions the core can raise, and results
    that carry either a value or the exception that aborted the computation. */
module Failures {

  datatype Option<+T> = None | Some(value: T)

  /** The exceptions main.py lets escape:
      - TypeError: `None += str` in parse_spreadsheet (a continuation line
        before any timestamp line);
      - AttributeError: `None.split` in extract_data (the `[None]` that
        parse_spreadsheet returns for header-only input);
      - IndexError: `parts[17]` and friends on a row with too few fields. */
  datatype Error = TypeError | AttributeError | IndexError

  datatype Result<+T> = Ok(value: T) | Err(error: Error)
}
