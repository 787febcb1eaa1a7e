/** The ENA metadata client of `rsfq/src/provs/ena.rs`: one portal request
    per attempt, the tab-separated reply parsed into run records, and a
    retry loop around it. */
module Ena {
  import opened Wrappers
  import opened Text

  /** HTTP status codes (`u16`). */
  type u16 = x: int | 0 <= x < 0x1_0000

  /** One run: field name to value (`HashMap<String, String>`). */
  type Record = map<string, string>

  const ENA_URL := "https://www.ebi.ac.uk/ena/portal/api/search?result=read_run&format=tsv"

  /** The portal URL requested for a query. */
  function MetadataUrl(query: string): string
  {
    ENA_URL + "&query=\"" + query + "\"&fields=all"
  }

  /** What the HTTP client returns for one request: a transport failure, or
      a status with the body text (`None` when the body could not be read,
      which the source then treats as the empty text). */
  datatype HttpReply = TransportError(message: string) | Reply(status: u16, body: Option<string>)

  /** `ENAServerResponse`. */
  datatype ServerResponse = Success(data: seq<Record>) | Error(status: u16, message: string)

  const EMPTY_BODY := "ERROR: Query was successful, but response was empty"
  const EMPTY_RESULT := "ERROR: Query was successful, but received an empty response for query"

  /** `StatusCode::is_success`. */
  predicate IsSuccess(status: u16) { 200 <= status <= 299 }

  /** The first `n` (header, value) pairs collected into a map: empty
      values are skipped and a later pair overwrites an earlier one with the
      same header. */
  function ZipRecord(headers: seq<string>, fields: seq<string>, n: nat): (r: Record)
    requires n <= |headers| && n <= |fields|
    ensures forall k :: k in r ==> r[k] != "" && k in headers[..n]
    ensures forall i :: 0 <= i < n && fields[i] != "" ==> headers[i] in r
  {
    if n == 0 then map[]
    else
      var m := ZipRecord(headers, fields, n - 1);
      assert headers[..n - 1] <= headers[..n];
      if fields[n - 1] == "" then m else m[headers[n - 1] := fields[n - 1]]
  }

  function Min(a: nat, b: nat): nat { if a <= b then a else b }

  /** One data line zipped positionally with the header columns. */
  function RecordOf(headers: seq<string>, line: string): Record
  {
    var fields := Split(line, '\t');
    ZipRecord(headers, fields, Min(|headers|, |fields|))
  }

  /** The lines that are not empty, in order. */
  function NonEmptyLines(ls: seq<string>): (r: seq<string>)
    ensures |r| <= |ls|
    ensures forall i :: 0 <= i < |r| ==> r[i] != "" && r[i] in ls
    ensures r == [] <==> forall i :: 0 <= i < |ls| ==> ls[i] == ""
  {
    if ls == [] then []
    else
      var rest := NonEmptyLines(ls[1..]);
      assert forall x :: x in ls[1..] ==> x in ls;
      if ls[0] == "" then rest else [ls[0]] + rest
  }

  /** Filtering two pieces one after the other is filtering the whole:
      the lines kept stay in their order. */
  lemma {:induction false} NonEmptyLinesAppend(a: seq<string>, b: seq<string>)
    ensures NonEmptyLines(a + b) == NonEmptyLines(a) + NonEmptyLines(b)
  {
    if a == [] {
      assert a + b == b;
    } else {
      assert (a + b)[1..] == a[1..] + b;
      NonEmptyLinesAppend(a[1..], b);
    }
  }

  /** Every non-empty line is kept as often as it occurs, and every empty
      one is dropped. */
  lemma {:induction false} NonEmptyLinesCount(ls: seq<string>)
    ensures multiset(NonEmptyLines(ls)) == multiset(ls)["" := 0]
  {
    if ls != [] {
      NonEmptyLinesCount(ls[1..]);
      assert ls == [ls[0]] + ls[1..];
    }
  }

  /** The records of a body: one per non-empty line after the header. */
  function Records(headers: seq<string>, dataLines: seq<string>): (r: seq<Record>)
    ensures |r| == |NonEmptyLines(dataLines)|
  {
    var ne := NonEmptyLines(dataLines);
    seq(|ne|, i requires 0 <= i < |ne| => RecordOf(headers, ne[i]))
  }

  /** The parsing of a successful reply's body in `get_ena_metadata`. */
  function ParseBody(text: string): (r: ServerResponse)
    ensures r.Success? ==> |r.data| > 0
    ensures r.Error? ==> r.status == 200
  {
    var ls := Lines(text);
    if |ls| == 0 then Error(200, EMPTY_BODY)
    else
      var data := Records(Split(ls[0], '\t'), ls[1..]);
      if |data| == 0 then Error(200, EMPTY_RESULT) else Success(data)
  }

  /** `get_ena_metadata` on the client's reply. */
  function MetadataResponse(reply: HttpReply): (r: ServerResponse)
    ensures r.Success? ==> reply.Reply? && IsSuccess(reply.status) && |r.data| > 0
  {
    match reply
    case TransportError(msg) => Error(500, msg)
    case Reply(status, body) =>
      if IsSuccess(status) then ParseBody(body.GetOr("")) else Error(status, body.GetOr(""))
  }

  /** A successful reply with an empty body is an error with status 200. */
  lemma EmptyBodyIsError(status: u16, body: Option<string>)
    requires IsSuccess(status) && body.GetOr("") == ""
    ensures MetadataResponse(Reply(status, body)) == Error(200, EMPTY_BODY)
  {
  }

  /** A successful reply with a header line but no non-empty data line is
      an error with status 200. */
  lemma HeaderOnlyIsError(status: u16, text: string)
    requires IsSuccess(status) && text != []
    requires forall i :: 1 <= i < |Lines(text)| ==> Lines(text)[i] == ""
    ensures MetadataResponse(Reply(status, Some(text))) == Error(200, EMPTY_RESULT)
  {
    var ls := Lines(text);
    assert forall i :: 0 <= i < |ls[1..]| ==> ls[1..][i] == ls[i + 1];
  }

  /** A reply is a success exactly when its status is 2xx and its body has
      a non-empty line after the header; the records are then those lines,
      in order, each zipped with the header. */
  lemma SuccessIffDataLines(reply: HttpReply)
    ensures MetadataResponse(reply).Success? <==>
            reply.Reply? && IsSuccess(reply.status)
            && |Lines(reply.body.GetOr(""))| >= 1
            && NonEmptyLines(Lines(reply.body.GetOr(""))[1..]) != []
    ensures MetadataResponse(reply).Success? ==>
            var ls := Lines(reply.body.GetOr(""));
            var data := MetadataResponse(reply).data;
            var ne := NonEmptyLines(ls[1..]);
            |data| == |ne| && forall i :: 0 <= i < |data| ==> data[i] == RecordOf(Split(ls[0], '\t'), ne[i])
  {
  }

  /** A reply whose status is not 2xx is an error carrying that status and
      the body; a transport failure is an error with status 500. */
  lemma FailedRequestIsError(reply: HttpReply)
    requires !(reply.Reply? && IsSuccess(reply.status))
    ensures reply.TransportError? ==> MetadataResponse(reply) == Error(500, reply.message)
    ensures reply.Reply? ==> MetadataResponse(reply) == Error(reply.status, reply.body.GetOr(""))
  {
  }

  /** Every value of a record is a non-empty field of its line, taken from
      the column of its key; nothing beyond the shorter of header and line
      becomes a key. */
  lemma {:induction false} RecordValuesFromColumns(headers: seq<string>, fields: seq<string>, n: nat, k: string)
    requires n <= |headers| && n <= |fields|
    requires k in ZipRecord(headers, fields, n)
    ensures exists i :: 0 <= i < n && headers[i] == k && fields[i] == ZipRecord(headers, fields, n)[k]
  {
    if fields[n - 1] != "" && headers[n - 1] == k {
      assert headers[n - 1] == k && fields[n - 1] == ZipRecord(headers, fields, n)[k];
    } else {
      RecordValuesFromColumns(headers, fields, n - 1, k);
    }
  }

  /** A column whose key does not occur later holds exactly its field when
      that field is not empty (a later column with the same key overwrites
      it). */
  lemma {:induction false} RecordLastColumnWins(headers: seq<string>, fields: seq<string>, n: nat, i: nat)
    requires i < n <= |headers| && n <= |fields|
    requires fields[i] != ""
    requires forall j :: i < j < n ==> headers[j] != headers[i]
    ensures ZipRecord(headers, fields, n)[headers[i]] == fields[i]
  {
    var m := ZipRecord(headers, fields, n - 1);
    if i < n - 1 {
      RecordLastColumnWins(headers, fields, n - 1, i);
      assert headers[n - 1] != headers[i];
      assert ZipRecord(headers, fields, n) == if fields[n - 1] == "" then m else m[headers[n - 1] := fields[n - 1]];
    } else {
      assert ZipRecord(headers, fields, n) == m[headers[i] := fields[i]];
    }
  }

  /** A key whose only column has an empty field is absent. */
  lemma {:induction false} RecordSkipsEmpty(headers: seq<string>, fields: seq<string>, n: nat, i: nat)
    requires i < n <= |headers| && n <= |fields|
    requires fields[i] == ""
    requires forall j :: 0 <= j < n && j != i ==> headers[j] != headers[i]
    ensures headers[i] !in ZipRecord(headers, fields, n)
  {
    if i < n - 1 {
      RecordSkipsEmpty(headers, fields, n - 1, i);
    } else if n > 1 {
      assert headers[i] !in headers[..n - 1];
    }
  }

  /** With distinct header columns, a record maps each column to its field
      exactly when that field is not empty. */
  lemma RecordOfDistinctHeaders(headers: seq<string>, line: string)
    requires forall i, j :: 0 <= i < j < |headers| ==> headers[i] != headers[j]
    ensures var fields := Split(line, '\t');
            var r := RecordOf(headers, line);
            forall i :: 0 <= i < Min(|headers|, |fields|) ==>
              (fields[i] != "" ==> headers[i] in r && r[headers[i]] == fields[i])
              && (fields[i] == "" ==> headers[i] !in r)
  {
    var fields := Split(line, '\t');
    var n := Min(|headers|, |fields|);
    forall i | 0 <= i < n
      ensures fields[i] != "" ==> ZipRecord(headers, fields, n)[headers[i]] == fields[i]
      ensures fields[i] == "" ==> headers[i] !in ZipRecord(headers, fields, n)
    {
      if fields[i] != "" {
        RecordLastColumnWins(headers, fields, n, i);
      } else {
        RecordSkipsEmpty(headers, fields, n, i);
      }
    }
  }

  /** `get_run_info`: ask until the first success, at most
      `maxAttempts + 1` times (the `k`-th request is answered by
      `replies(k)`), sleeping `sleep` seconds after each failure (`slept` lists the sleeps).
      A success returns exactly its records; exhausting the attempts ends
      the process with status 1. `attempts` is the source's failure
      counter. */
  method GetRunInfo(query: string, maxAttempts: nat, sleep: nat, replies: nat -> HttpReply)
    returns (r: Result<seq<Record>, Abort>, urls: seq<string>, attempts: nat, slept: seq<nat>)
    ensures 1 <= |urls| <= maxAttempts + 1
    ensures forall i :: 0 <= i < |urls| ==> urls[i] == MetadataUrl(query)
    ensures forall k :: 0 <= k < |urls| - 1 ==> MetadataResponse(replies(k)).Error?
    ensures r.Ok? <==> MetadataResponse(replies(|urls| - 1)).Success?
    ensures r.Ok? ==> r.value == MetadataResponse(replies(|urls| - 1)).data && |r.value| > 0
    ensures r.Err? ==> |urls| == maxAttempts + 1 && r.error == Exit(1)
    ensures attempts == if r.Ok? then |urls| - 1 else |urls|
    ensures |slept| == attempts && forall i :: 0 <= i < |slept| ==> slept[i] == sleep
  {
    attempts := 0;
    urls := [];
    slept := [];
    var result: seq<Record> := [];
    while maxAttempts >= attempts
      invariant attempts <= maxAttempts + 1
      invariant result == [] && |urls| == attempts
      invariant |slept| == attempts && forall i :: 0 <= i < |slept| ==> slept[i] == sleep
      invariant forall i :: 0 <= i < |urls| ==> urls[i] == MetadataUrl(query)
      invariant forall k :: 0 <= k < attempts ==> MetadataResponse(replies(k)).Error?
      decreases maxAttempts + 1 - attempts
    {
      var response := MetadataResponse(replies(|urls|));
      urls := urls + [MetadataUrl(query)];
      match response {
        case Success(data) =>
          result := result + data;
          break;
        case Error(status, message) =>
          attempts := attempts + 1;
          slept := slept + [sleep];
      }
    }
    if result == [] {
      r := Err(Exit(1));
    } else {
      r := Ok(result);
    }
  }
}
