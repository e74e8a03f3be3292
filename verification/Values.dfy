/** Values of unstructured Kubernetes objects: what a Go interface{} holds after decoding. */
module Values {

  datatype Value =
    | Null | Str(text: string) | Num(n: int) | Bool(b: bool)
    | List(items: seq<Value>) | Map(fields: map<string, Value>)

  type Fields = map<string, Value>
}
