/** A change hint as a caller's document and as the intent kept in the inbox. */
module HintText {
  import opened IdentityTuple

  datatype Request = Request(solution: string, project: string, reason: string, paths: seq<string>)

  datatype Intent = Intent(id: string, requests: seq<Request>)

  /** No longer document is accepted, and no longer intent is read. */
  const MAX_HINT_DOCUMENT_BYTES := 1048576

  function RequestText(r: Request): string {
    "{\"solution\":" + Quote(r.solution) + ",\"project\":" + Quote(r.project) + ",\"reason\":" + Quote(r.reason)
    + ",\"paths\":" + Encode(r.paths) + "}"
  }

  function RequestTexts(requests: seq<Request>): string {
    if requests == [] then ""
    else if |requests| == 1 then RequestText(requests[0])
    else RequestText(requests[0]) + "," + RequestTexts(requests[1..])
  }

  function IntentText(i: Intent): string {
    "{\"schema_version\":1,\"job_id\":" + Quote(i.id) + ",\"requests\":[" + RequestTexts(i.requests) + "]}"
  }

  /** The document that asks for a request, written without a space. */
  function DocumentText(r: Request): string {
    "{\"project_id\":" + Quote(r.project) + ",\"reason\":" + Quote(r.reason) + ",\"paths\":" + Encode(r.paths) + "}"
  }

  predicate IsReadable(i: Intent) {
    |IntentText(i)| <= MAX_HINT_DOCUMENT_BYTES
  }

  /** How much longer the intent is than the document: its own fields, the id and the
      solution. */
  lemma IntentIsLonger(id: string, r: Request)
    ensures |IntentText(Intent(id, [r]))| == |DocumentText(r)| + |Quote(id)| + |Quote(r.solution)| + 53
  {
    assert RequestTexts([r]) == RequestText(r);
  }

  /** So a document is accepted and its intent never read exactly in the last stretch
      below the limit. */
  lemma AcceptedAndUnreadable(id: string, r: Request)
    ensures |DocumentText(r)| <= MAX_HINT_DOCUMENT_BYTES && !IsReadable(Intent(id, [r])) <==>
            MAX_HINT_DOCUMENT_BYTES - 53 - |Quote(id)| - |Quote(r.solution)| < |DocumentText(r)| <= MAX_HINT_DOCUMENT_BYTES
  {
    IntentIsLonger(id, r);
  }
}
