/** The exceptions the ATON core raises, as one closed datatype.  The four
    ATON error kinds of exceptions.py wrap the Python built-in exceptions that
    the core lets escape (TypeError from an incomparable or unhashable value,
    ValueError from a failed number conversion, and so on). */
module Errors {
  import opened Wrappers

  /** Why a query failed to lex, parse or run. */
  datatype QueryFault =
    | InvalidCharacter(position: nat, found: char)   // no token pattern matches here
    | Expected(kind: string, got: Option<string>)    // _consume saw another token kind, or EOF
    | ExpectedValue                                   // _parse_value found no value token
    | InvalidSpecialCondition                         // _parse_special_condition without IN/LIKE/BETWEEN
    | TableNotFound(table: string)                   // execute() on an absent table

  /** Why an encode call failed before any output was produced. */
  datatype EncodingFault =
    | DataNotDictionary
    | TableNotList(table: string)
    | RecordNotDictionary(index: nat, table: string)
    | EmptyData                                      // streaming: no tables at all
    | MultipleTables                                 // streaming: several tables and no name
    | StreamTableNotFound(table: string)

  datatype Error =
    | EncodingError(fault: EncodingFault)
    | EncodingFailed(cause: Error)        // "Encoding failed: ..." wrapper of encode()
    | DecodingFailed(cause: Error)        // "Decode failed: ..." wrapper of decode()
    | QueryError(query: QueryFault)
    | QueryEncodingFailed(cause: Error)   // "Query encoding failed: ..." of encode_with_query()
    | TypeError                           // Python TypeError (ordering or hashing)
    | ValueError                          // Python ValueError (bad int()/index())
    | IndexError                          // Python IndexError (conditions[0] of an empty list)
    | AttributeError                      // Python AttributeError (.items()/.get() on a non-dict)
}
