/**
 * An already-parsed JSON document. Turning JSON text into such a value is
 * serde_json's job and is not part of this model; the decoder works on the
 * value. Integers and fractional numbers are kept apart because serde_json
 * keeps them apart: `1` is an integer, `1.0` and `1e0` are not.
 */
module Json {

  datatype Value =
    | Null
    | Bool(b: bool)
    | Int(i: int)
    | Float(f: real)
    | Str(s: string)
    | Arr(items: seq<Value>)
    | Obj(fields: map<string, Value>)
}
