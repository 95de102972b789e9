/** The flow object (src/flow/flow.ts): the request and response it records, and its pause. */
module FlowModel {
  import opened Prelude
  import opened Headers

  datatype Request = Request(scheme: string, host: string, port: int, path: string, headers: Fields,
                             body: Option<seq<byte>>)

  datatype Response = Response(statusCode: int, headers: Fields, body: Option<seq<byte>>)

  /** What a pause was ended with. */
  datatype Action = Resumed | Killed

  /** Everything rules and breakpoints look at. */
  datatype View = View(request: Request, response: Option<Response>, color: string, appliedRules: seq<string>,
                       mocked: bool)

  class Flow {
    var request: Request
    var response: Option<Response>
    var color: string
    var appliedRules: seq<string>
    var mocked: bool
    var intercepted: bool
    var pending: bool
    /** The answers given to the pauses so far, in order. */
    var answers: seq<Action>
    var pauses: nat
    /** Pauses whose resolver was replaced before it was called: they are never answered. */
    var abandoned: nat

    constructor (request: Request)
      ensures Valid() && this.request == request && response.None? && appliedRules == [] && !mocked && !intercepted
      ensures pauses == 0 && abandoned == 0 && color == ""
    {
      this.request := request;
      response, color, appliedRules, mocked := None, "", [], false;
      intercepted, pending, answers, pauses, abandoned := false, false, [], 0, 0;
    }

    function Look(): View
      reads this
    {
      View(request, response, color, appliedRules, mocked)
    }

    /** A resolver is pending exactly while the flow shows as intercepted, and every pause but the pending
        one and the abandoned ones has been answered once. */
    ghost predicate Valid()
      reads this
    {
      (intercepted <==> pending) && pauses == |answers| + abandoned + if pending then 1 else 0
    }

    /** A second pause takes the place of one that is pending. */
    method Intercept()
      requires Valid()
      modifies this`intercepted, this`pending, this`pauses, this`abandoned
      ensures Valid() && intercepted && pauses == old(pauses) + 1
      ensures abandoned == old(abandoned) + if old(pending) then 1 else 0
    {
      if pending {
        abandoned := abandoned + 1;
      }
      intercepted := true;
      pending := true;
      pauses := pauses + 1;
    }

    method Resume()
      requires Valid()
      modifies this`intercepted, this`pending, this`answers
      ensures Valid() && !intercepted
      ensures answers == if old(intercepted) then old(answers) + [Resumed] else old(answers)
    {
      if pending {
        intercepted := false;
        answers := answers + [Resumed];
        pending := false;
      }
    }

    method Kill()
      requires Valid()
      modifies this`intercepted, this`pending, this`answers
      ensures Valid() && !intercepted
      ensures answers == if old(intercepted) then old(answers) + [Killed] else old(answers)
    {
      if pending {
        intercepted := false;
        answers := answers + [Killed];
        pending := false;
      }
    }
  }
}
