/**
 * The morgan stream writer of the Express exercise: each access-log line,
 * formatted as ":method :url :status :response-time ms", is cut at single
 * spaces and its first four pieces become the fields of the logged object.
 */
module RequestLog {
  import opened Wrappers
  import opened JsBuiltins

  /** The object passed to the logger (its `method` field is `httpMethod`
      here, `method` being a Dafny keyword); `None` is a field left `undefined`
      because the line had fewer pieces. */
  datatype LogObject = LogObject(
    httpMethod: Option<string>,
    url: Option<string>,
    status: Option<string>,
    responseTime: Option<string>)

  /** `parts[k]`: `undefined` past the end of the array. */
  function Piece(parts: seq<string>, k: nat): Option<string> {
    if k < |parts| then Some(parts[k]) else None
  }

  /** `message.split(" ")[0]`, `[1]`, `[2]` and `[3]`. */
  function ToLogObject(message: string): (r: LogObject)
    ensures r.httpMethod.Some?
    ensures r.responseTime.Some? ==> r.status.Some?
    ensures r.status.Some? ==> r.url.Some?
    ensures forall f :: f in [r.httpMethod, r.url, r.status, r.responseTime] && f.Some? ==> ' ' !in f.value
  {
    var parts := Split(message);
    LogObject(Piece(parts, 0), Piece(parts, 1), Piece(parts, 2), Piece(parts, 3))
  }

  /** The number of spaces in `s`. */
  function SpaceCount(s: string): nat {
    if s == [] then 0 else (if s[0] == ' ' then 1 else 0) + SpaceCount(s[1..])
  }

  /** A line with n spaces splits into n + 1 pieces. */
  lemma {:induction false} SplitLength(s: string)
    ensures |Split(s)| == SpaceCount(s) + 1
  {
    if s != [] {
      SplitLength(s[1..]);
    }
  }

  /** The four fields are the four leading space-free tokens of the line,
      whatever follows them (" ms" and the newline morgan appends, or nothing). */
  lemma LeadingTokens(m: string, u: string, st: string, rt: string, tail: string)
    requires ' ' !in m && ' ' !in u && ' ' !in st && ' ' !in rt
    requires tail == [] || tail[0] == ' '
    ensures ToLogObject(m + " " + (u + " " + (st + " " + (rt + tail))))
         == LogObject(Some(m), Some(u), Some(st), Some(rt))
  {
    var r0 := rt + tail;
    var r1 := st + " " + r0;
    var r2 := u + " " + r1;
    if tail == [] {
      assert r0 == rt;
      SplitWord(rt);
    } else {
      assert r0 == rt + " " + tail[1..];
      SplitAfterWord(rt, tail[1..]);
    }
    assert Split(r0)[0] == rt;
    SplitAfterWord(st, r0);
    SplitAfterWord(u, r1);
    SplitAfterWord(m, r2);
  }

  /** A field is present exactly when the line has enough spaces before it:
      the response time needs at least three. */
  lemma FieldsPresent(message: string)
    ensures ToLogObject(message).httpMethod.Some?
    ensures ToLogObject(message).url.Some? <==> SpaceCount(message) >= 1
    ensures ToLogObject(message).status.Some? <==> SpaceCount(message) >= 2
    ensures ToLogObject(message).responseTime.Some? <==> SpaceCount(message) >= 3
  {
    SplitLength(message);
  }
}
