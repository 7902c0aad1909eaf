/** The library's two calls that the RPC messages go through. */
module CJson {
  import opened Coding
  import opened Json
  import opened JsonParse
  import opened JsonRoundTrip
  import opened PrintBuffers
  import opened ParseBuffers

  /** cJSON_Parse, on a C string. */
  method Parse(text: Bytes) returns (r: Parse<Value>)
    requires NulFree(text)
    ensures r == ParseText(text)
  {
    var buffer := new ParseBuffer(text + [0]);
    if |buffer.content| > 4 && buffer.content[..3] == [0xEF, 0xBB, 0xBF] {
      buffer.offset := 3;
    }
    buffer.SkipWhitespace();
    r := buffer.ParseValue();
  }

  /** A message printed at one end and parsed at the other arrives as it was sent. */
  method Send(message: Value, format: bool) returns (ok: bool, received: Value)
    requires Clean(message) && Within(message, NESTING_LIMIT)
    ensures ok ==> received == message
    ensures !ok ==> TooLong(|Print(message, 0, format)|)
  {
    var text;
    ok, text := PrintTree(message, format);
    if !ok {
      return false, Null;
    }
    PrintNulFree(message, 0, format);
    RoundTrip(message, format);
    var r := Parse(text);
    received := r.value;
  }
}
