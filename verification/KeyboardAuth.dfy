/** Keyboard-interactive authentication (RFC 4256) against any server and any user: the
    server is the list of its replies, the user the list of the answers to what is shown. */
module KeyboardAuth {
  import opened Wrappers

  type Methods = set<string>

  datatype Prompt = Prompt(text: string, echo: bool)

  datatype Reply =
    | Success
    | Failure(remaining: Methods)
    | InfoRequest(name: string, instructions: string, prompts: seq<Prompt>)

  /** What the user's handler is shown. */
  datatype Prompting = Prompting(username: string, instructions: string, prompts: seq<Prompt>)

  const METHOD := "keyboard-interactive"

  function Shown(user: string, r: Reply): Prompting
    requires r.InfoRequest?
  {
    Prompting(if r.name == "" then user else r.name,
              if r.instructions == "" then "Authentication required" else r.instructions,
              r.prompts)
  }

  /** What the parties would say: the server's replies, the first to the start and the others
      to the responses, where nothing means that the call fails; and the user's answers, where
      nothing means that the handler fails. */
  datatype Parties = Parties(user: string, replies: seq<Option<Reply>>, answers: seq<Option<seq<string>>>)
  {
    function Reply(i: nat): Option<Reply> {
      if i < |replies| then replies[i] else None
    }

    function Answer(k: nat): Option<seq<string>> {
      if k < |answers| then answers[k] else None
    }

    predicate Asks(i: nat) {
      Reply(i).Some? && Reply(i).value.InfoRequest?
    }

    /** Asks for something that only the user can give. */
    predicate Prompts(i: nat) {
      Asks(i) && Reply(i).value.prompts != []
    }

    /** How many of the first `i` replies prompt the user. */
    function Prompted(i: nat): nat {
      if i == 0 then 0 else Prompted(i - 1) + if Prompts(i - 1) then 1 else 0
    }

    /** The first `n` replies are requests that can be answered. */
    ghost predicate Answerable(n: nat) {
      forall i :: 0 <= i < n ==> Asks(i) && (Prompts(i) ==> Answer(Prompted(i)).Some?)
    }

    /** Reply `n` ends the exchange. */
    predicate Ends(n: nat) {
      !Asks(n) || (Prompts(n) && Answer(Prompted(n)).None?)
    }

    /** The response to each of the first `n` replies: what the user answered, or nothing
        when nothing was asked. */
    ghost predicate Responses(n: nat, sent: seq<seq<string>>) {
      && |sent| == n
      && forall i :: 0 <= i < n ==>
           sent[i] == if Prompts(i) && Answer(Prompted(i)).Some? then Answer(Prompted(i)).value else []
    }

    /** What the user has seen when reply `n` has been handled up to its prompt: each request
        that asks for something, under its own name or the user's, with its instructions or
        the standard ones. */
    ghost predicate Seen(n: nat, shown: seq<Prompting>) {
      && |shown| == Prompted(n)
      && forall i :: 0 <= i < n && Prompts(i) ==>
           && Prompted(i) < |shown|
           && var r := Reply(i).value;
              shown[Prompted(i)] == Prompting(if r.name == "" then user else r.name,
                                              if r.instructions == "" then "Authentication required" else r.instructions,
                                              r.prompts)
    }
  }

  lemma {:induction false} PromptedMonotone(p: Parties, i: nat, j: nat)
    requires i <= j
    ensures p.Prompted(i) <= p.Prompted(j)
    ensures p.Prompted(j) > 0 <==> exists k :: 0 <= k < j && p.Prompts(k)
    decreases j - i, j
  {
    if i < j {
      PromptedMonotone(p, i, j - 1);
    } else if j > 0 {
      PromptedMonotone(p, j - 1, j - 1);
    }
  }

  datatype Verdict = Authenticated | Rejected | HandlerFailed

  class Session {
    const parties: Parties
    var sent: seq<seq<string>>
    var shown: seq<Prompting>
    var methodsTried: seq<string>
    var serverMethods: Option<Methods>

    constructor (parties: Parties, methodsTried: seq<string>, serverMethods: Option<Methods>)
      ensures this.parties == parties && sent == [] && shown == []
      ensures this.methodsTried == methodsTried && this.serverMethods == serverMethods
    {
      this.parties := parties;
      sent, shown := [], [];
      this.methodsTried, this.serverMethods := methodsTried, serverMethods;
    }

    method Respond(answers: seq<string>) returns (reply: Option<Reply>)
      modifies `sent
      ensures sent == old(sent) + [answers]
      ensures reply == parties.Reply(|sent|)
    {
      sent := sent + [answers];
      reply := parties.Reply(|sent|);
    }

    method AskUser(what: Prompting) returns (answers: Option<seq<string>>)
      modifies `shown
      ensures shown == old(shown) + [what]
      ensures answers == parties.Answer(|old(shown)|)
    {
      answers := parties.Answer(|shown|);
      shown := shown + [what];
    }

    /** The exchange runs through exactly the answerable requests, responding once to each,
        and ends at the first reply that is something else; that reply decides. */
    method TryKeyboardInteractive() returns (verdict: Verdict, userWasPrompted: bool)
      requires sent == [] && shown == []
      modifies this
      ensures parties.Answerable(|sent|) && parties.Ends(|sent|)
      ensures parties.Responses(|sent|, sent)
      ensures verdict.Authenticated? <==> parties.Reply(|sent|) == Some(Success)
      ensures verdict.HandlerFailed? <==> parties.Asks(|sent|)
      ensures parties.Seen(if verdict.HandlerFailed? then |sent| + 1 else |sent|, shown)
      ensures userWasPrompted <==> shown != []
      ensures serverMethods == if parties.Reply(|sent|).Some? && parties.Reply(|sent|).value.Failure?
                               then Some(parties.Reply(|sent|).value.remaining) else old(serverMethods)
      ensures methodsTried == old(methodsTried) + if parties.Reply(0).Some? then ["keyboard-interactive"] else []
    {
      hide Parties.Answerable, Parties.Responses, Parties.Seen, Parties.Prompted;
      ghost var n := 0;
      userWasPrompted := false;
      Before(parties);
      match parties.Reply(0)
      case None =>
        return Rejected, false;
      case Some(first) =>
        methodsTried := methodsTried + [METHOD];
        var response := first;
        while true
          invariant n == |sent| && parties.Reply(n) == Some(response)
          invariant parties.Answerable(n) && parties.Responses(n, sent) && parties.Seen(n, shown)
          invariant userWasPrompted <==> shown != []
          invariant serverMethods == old(serverMethods) && methodsTried == old(methodsTried) + [METHOD]
          decreases |parties.replies| - n
        {
          match response
          case Success =>
            return Authenticated, userWasPrompted;
          case Failure(remaining) =>
            serverMethods := Some(remaining);
            return Rejected, userWasPrompted;
          case InfoRequest(name, instructions, prompts) =>
            Round(parties, n, sent, shown);
            var answers := [];
            if prompts != [] {
              userWasPrompted := true;
              var given := AskUser(Shown(parties.user, response));
              if given.None? {
                return HandlerFailed, userWasPrompted;
              }
              answers := given.value;
            }
            var next := Respond(answers);
            n := n + 1;
            if next.None? {
              return Rejected, userWasPrompted;
            }
            response := next.value;
        }
    }
  }

  lemma Before(p: Parties)
    ensures p.Answerable(0) && p.Responses(0, []) && p.Seen(0, [])
  {
  }

  /** One request answered. */
  lemma Round(p: Parties, n: nat, sent: seq<seq<string>>, shown: seq<Prompting>)
    requires p.Answerable(n) && p.Responses(n, sent) && p.Seen(n, shown) && p.Asks(n)
    ensures |sent| == n && |shown| == p.Prompted(n)
    ensures var shown' := if p.Prompts(n) then shown + [Shown(p.user, p.Reply(n).value)] else shown;
            p.Seen(n + 1, shown')
    ensures if p.Prompts(n) && p.Answer(|shown|).None? then p.Ends(n)
            else
              var answers := if p.Prompts(n) then p.Answer(|shown|).value else [];
              p.Answerable(n + 1) && p.Responses(n + 1, sent + [answers])
  {
    hide Parties.Answerable, Parties.Responses, Parties.Prompted;
    assert |shown| == p.Prompted(n);
    RoundSeen(p, n, shown);
    if !(p.Prompts(n) && p.Answer(|shown|).None?) {
      RoundSent(p, n, sent, if p.Prompts(n) then p.Answer(|shown|).value else []);
    }
    SentSoFar(p, n, sent);
  }

  lemma SentSoFar(p: Parties, n: nat, sent: seq<seq<string>>)
    requires p.Responses(n, sent)
    ensures |sent| == n
  {
  }

  lemma RoundSeen(p: Parties, n: nat, shown: seq<Prompting>)
    requires p.Seen(n, shown) && p.Asks(n)
    ensures p.Seen(n + 1, if p.Prompts(n) then shown + [Shown(p.user, p.Reply(n).value)] else shown)
  {
    assert p.Prompted(n + 1) == p.Prompted(n) + if p.Prompts(n) then 1 else 0;
    hide Parties.Prompted;
  }

  lemma RoundSent(p: Parties, n: nat, sent: seq<seq<string>>, answers: seq<string>)
    requires p.Answerable(n) && p.Responses(n, sent) && p.Asks(n)
    requires p.Prompts(n) ==> p.Answer(p.Prompted(n)) == Some(answers)
    requires !p.Prompts(n) ==> answers == []
    ensures p.Answerable(n + 1) && p.Responses(n + 1, sent + [answers])
  {
    hide Parties.Prompted, Parties.Asks, Parties.Prompts, Parties.Answer, Parties.Reply;
  }

  /** What was sent and where the exchange ended follow from the parties alone. */
  lemma EndsOnce(p: Parties, n: nat, m: nat)
    requires p.Answerable(n) && p.Ends(n) && p.Answerable(m) && p.Ends(m)
    ensures n == m
  {
    assert n < m ==> p.Asks(n);
    assert m < n ==> p.Asks(m);
  }

  /** The user was prompted if and only if the server asked for something. */
  lemma PromptedIff(p: Parties, n: nat, shown: seq<Prompting>)
    requires p.Seen(n, shown)
    ensures shown != [] <==> exists k :: 0 <= k < n && p.Prompts(k)
  {
    PromptedMonotone(p, n, n);
  }
}
