/** The files `$ref` values lead through, the errors resolving them records, and where they are recorded
    (shared/definition-validator/validate-refs.ts). */
module RefGraph {
  datatype Json =
    | JNull
    | JBool(b: bool)
    | JNumber(n: real)
    | JString(s: string)
    | JArray(items: seq<Json>)
    | JObject(fields: map<string, Json>)

  /** A file that exists either parses or does not. */
  datatype File = Unparseable | Parsed(content: Json)

  /** The files by absolute path, and path.resolve against a file's directory. */
  datatype Env = Env(files: map<string, File>, resolve: (string, string) -> string)

  const MAX_REF_DEPTH := 10
  const REF := "$ref"

  datatype Error =
    | TooDeep
    | NotAnObject(i: nat)
    | RefNotAString(i: nat)
    | Circular(i: nat, ref: string)
    | NotFound(i: nat, ref: string)
    | CannotParse(i: nat, ref: string)
    | NotAnObjectFile(i: nat, ref: string)
    | NoStepsArray(i: nat, ref: string)
    | NoActionObject(i: nat, ref: string)

  class ValidationResult {
    var errors: seq<Error>

    constructor ()
      ensures errors == []
    {
      errors := [];
    }

    method Err(e: Error)
      modifies this
      ensures errors == old(errors) + [e]
    {
      errors := errors + [e];
    }
  }

  lemma Regroup<T>(a: seq<T>, b: seq<T>, c: seq<T>)
    ensures a + (b + c) == a + b + c
  {
  }
}
