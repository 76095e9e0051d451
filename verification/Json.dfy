/** The JSON values reldir stores, and the few containers every module shares. */
module Json {

  datatype Option<+T> = None | Some(value: T)

  /**
   A JSON value as the program compares it: a number keeps its exact spelling,
   and an object is its members whatever order they were written in.
   */
  datatype Value =
    | Null
    | Bool(flag: bool)
    | Number(lexeme: string)
    | String(text: string)
    | Array(items: seq<Value>)
    | Object(members: map<string, Value>)
}
