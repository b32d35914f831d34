/**
 * The task save endpoint of `pages/api/save-task.ts`: a list held in the server's memory for as
 * long as the module lives. A POST appends its body, a GET answers with the whole list, and any
 * other method is refused with 405.
 */
module SaveTask {

  /** A request: its HTTP method and its (already parsed) body. */
  datatype Request<T> = Request(verb: string, body: T)

  datatype Payload<T> = Message(message: string) | Listing(tasks: seq<T>)

  datatype Response<T> = Response(status: int, payload: Payload<T>)

  /** The list after one request and the response to it. */
  function Handle<T>(tasks: seq<T>, req: Request<T>): (r: (seq<T>, Response<T>))
    ensures req.verb == "POST" ==> r.0 == tasks + [req.body] && r.1 == Response(200, Message("保存成功"))
    ensures req.verb == "GET" ==> r.0 == tasks && r.1 == Response(200, Listing(tasks))
    ensures req.verb != "POST" ==> r.0 == tasks
    ensures r.1.status == 405 <==> req.verb != "POST" && req.verb != "GET"
    ensures r.1.status == 405 ==> r.1.payload == Message("許可されていないメソッドです")
  {
    if req.verb == "POST" then (tasks + [req.body], Response(200, Message("保存成功")))
    else if req.verb == "GET" then (tasks, Response(200, Listing(tasks)))
    else (tasks, Response(405, Message("許可されていないメソッドです")))
  }

  /** The list after a run of requests, served one after another. */
  function Run<T>(tasks: seq<T>, reqs: seq<Request<T>>): seq<T>
    decreases |reqs|
  {
    if reqs == [] then tasks else Run(Handle(tasks, reqs[0]).0, reqs[1..])
  }

  /** The bodies of the POST requests, in order. */
  function Posted<T>(reqs: seq<Request<T>>): (r: seq<T>)
    ensures |r| <= |reqs|
  {
    if reqs == [] then []
    else (if reqs[0].verb == "POST" then [reqs[0].body] else []) + Posted(reqs[1..])
  }

  /** The list only grows: it is what it was, followed by every posted body in the order posted. */
  lemma {:induction false} RunAppendsPosted<T>(tasks: seq<T>, reqs: seq<Request<T>>)
    ensures Run(tasks, reqs) == tasks + Posted(reqs)
    decreases |reqs|
  {
    if reqs != [] {
      var next := Handle(tasks, reqs[0]).0;
      RunAppendsPosted(next, reqs[1..]);
      if reqs[0].verb == "POST" {
        assert next == tasks + [reqs[0].body];
        assert tasks + [reqs[0].body] + Posted(reqs[1..]) == tasks + ([reqs[0].body] + Posted(reqs[1..]));
      }
    }
  }

  /** A GET after any run of requests on a fresh server lists exactly the bodies posted, in order. */
  lemma ListingAfterRun<T>(reqs: seq<Request<T>>, probe: T)
    ensures Handle(Run([], reqs), Request("GET", probe)).1 == Response(200, Listing(Posted(reqs)))
  {
    RunAppendsPosted([], reqs);
    assert [] + Posted(reqs) == Posted(reqs);
  }

  /** The module-level list and the handler that serves requests against it. */
  class Endpoint<T> {
    var tasks: seq<T>

    /** The module is loaded with an empty list. */
    constructor ()
      ensures tasks == []
    {
      tasks := [];
    }

    /** `handler`: serves one request. */
    method Handler(req: Request<T>) returns (resp: Response<T>)
      modifies this
      ensures (tasks, resp) == Handle(old(tasks), req)
    {
      if req.verb == "POST" {
        tasks := tasks + [req.body];
        return Response(200, Message("保存成功"));
      }
      if req.verb == "GET" {
        return Response(200, Listing(tasks));
      }
      return Response(405, Message("許可されていないメソッドです"));
    }
  }
}
