/** The server side of SASL LOGIN, driven reply by reply until it is done or has failed. */
module SaslLogin {
  import opened Wrappers

  datatype Progress = Progress(username: string, step: nat)

  datatype Answer = Challenge(prompt: string) | Done | Failed

  const Start := Progress("", 0)

  /** A missing reply reads as empty text. */
  function Text(response: Option<string>): string {
    if response.Some? then response.value else ""
  }

  function NextStep(p: Progress, response: Option<string>, authenticate: (string, string) -> bool): (Progress, Answer) {
    if p.step == 0 then
      if response.None? then (p, Challenge("Username:"))
      else (Progress(response.value, 1), Challenge("Password:"))
    else if p.step == 1 then
      if authenticate(p.username, Text(response)) then (p.(step := 2), Done) else (p, Failed)
    else (p, Failed)
  }

  class LoginServer {
    const authenticate: (string, string) -> bool
    var username: string
    var step: nat

    constructor (authenticate: (string, string) -> bool)
      ensures this.authenticate == authenticate && Progress(username, step) == Start
    {
      this.authenticate := authenticate;
      username, step := "", 0;
    }

    method Next(response: Option<string>) returns (answer: Answer)
      modifies this
      ensures (Progress(username, step), answer) == NextStep(old(Progress(username, step)), response, authenticate)
    {
      if step == 0 {
        if response.None? {
          return Challenge("Username:");
        }
        username := response.value;
        step := 1;
        return Challenge("Password:");
      } else if step == 1 {
        if !authenticate(username, Text(response)) {
          return Failed;
        }
        step := 2;
        return Done;
      }
      return Failed;
    }
  }

  /** Whether the exchange ends in success on these replies. */
  function Succeeds(p: Progress, responses: seq<Option<string>>, authenticate: (string, string) -> bool): bool
    decreases |responses|
  {
    if responses == [] then false
    else
      var (q, answer) := NextStep(p, responses[0], authenticate);
      match answer
      case Done => true
      case Failed => false
      case Challenge(_) => Succeeds(q, responses[1..], authenticate)
  }

  predicate NamedAt(responses: seq<Option<string>>, k: nat) {
    k < |responses| && responses[k].Some? && forall i :: 0 <= i < k ==> responses[i].None?
  }

  /** The first reply that is not missing is the user name - an empty one too - and the one
      after it the password; nothing else logs in, and no second guess is taken. */
  lemma {:induction false} LoginMeaning(responses: seq<Option<string>>, authenticate: (string, string) -> bool)
    ensures Succeeds(Start, responses, authenticate) <==>
            exists k: nat :: NamedAt(responses, k) && k + 1 < |responses|
                        && authenticate(responses[k].value, Text(responses[k + 1]))
    decreases |responses|
  {
    if responses != [] && responses[0].None? {
      var rest := responses[1..];
      LoginMeaning(rest, authenticate);
      if Succeeds(Start, rest, authenticate) {
        var k: nat :| NamedAt(rest, k) && k + 1 < |rest| && authenticate(rest[k].value, Text(rest[k + 1]));
        assert NamedAt(responses, k + 1);
      }
      forall k: nat | NamedAt(responses, k) ensures k > 0 && NamedAt(rest, k - 1) {
      }
    } else if responses != [] {
      assert NamedAt(responses, 0);
      if |responses| > 1 {
        assert responses[1..][0] == responses[1];
      }
    }
  }
}
