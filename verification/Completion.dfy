/** `complete_validated`: one completion, re-prompted with its own validation error until
    it is valid JSON or the repairs run out. */
module Completion {
  import opened Outcomes

  const MAX_FORMAT_REPAIRS: nat := 2

  datatype Usage = Usage(cacheCreation: nat, cached: nat, input: nat, output: nat, total: nat) {
    function Merged(other: Usage): Usage {
      Usage(cacheCreation + other.cacheCreation, cached + other.cached, input + other.input,
            output + other.output, total + other.total)
    }
  }

  datatype Role = Assistant | System | User
  datatype Message = Message(role: Role, content: string)
  datatype Reply = Reply(text: string, usage: Usage)
  datatype ApiError = Upstream(message: string) | ResponseFormat(message: string)

  /** The model (call number and conversation in, reply or failure out) and the requested
      format, if it requires JSON. */
  datatype Env = Env(
    complete: (nat, seq<Message>) -> Result<Reply, string>,
    requiresJson: bool,
    validate: string -> Result<string, string>,
    repair: string -> string)

  /** What a failed reply adds to the conversation. */
  function Repair(env: Env, text: string): seq<Message> {
    match env.validate(text)
    case Ok(_) => []
    case Err(e) => [Message(Assistant, text), Message(User, env.repair(e))]
  }

  /** The conversation the `k`-th call is made with. */
  function Conversation(env: Env, messages: seq<Message>, k: nat): seq<Message> {
    if k == 0 then messages
    else
      var earlier := Conversation(env, messages, k - 1);
      match env.complete(k - 1, earlier)
      case Ok(reply) => earlier + Repair(env, reply.text)
      case Err(_) => earlier
  }

  function ReplyTo(env: Env, messages: seq<Message>, k: nat): Result<Reply, string> {
    env.complete(k, Conversation(env, messages, k))
  }

  /** Call `k` was answered with text the format rejects. */
  predicate Rejected(env: Env, messages: seq<Message>, k: nat) {
    ReplyTo(env, messages, k).Ok? && env.validate(ReplyTo(env, messages, k).value.text).Err?
  }

  /** The usage of calls `0..=k`. */
  function UsageThrough(env: Env, messages: seq<Message>, k: nat): Usage {
    var own := match ReplyTo(env, messages, k) case Ok(reply) => reply.usage case Err(_) => Usage(0, 0, 0, 0, 0);
    if k == 0 then own else UsageThrough(env, messages, k - 1).Merged(own)
  }

  /** How a request that made `n + 1` calls may end. */
  predicate IsOutcome(env: Env, messages: seq<Message>, n: nat, r: Result<Reply, ApiError>) {
    && n <= MAX_FORMAT_REPAIRS
    && (forall k | 0 <= k < n :: Rejected(env, messages, k))
    && match ReplyTo(env, messages, n)
       case Err(e) => r == Err(Upstream(e))
       case Ok(reply) =>
         match env.validate(reply.text)
         case Ok(json) => r == Ok(Reply(json, UsageThrough(env, messages, n)))
         case Err(e) => n == MAX_FORMAT_REPAIRS && r == Err(ResponseFormat(e))
  }

  /** At most `1 + MAX_FORMAT_REPAIRS` calls; only validated text comes back, with the
      usage of every call. */
  method CompleteValidated(env: Env, messages: seq<Message>) returns (r: Result<Reply, ApiError>, calls: nat)
    ensures !env.requiresJson ==>
              calls == 1 &&
              r == match env.complete(0, messages) case Ok(reply) => Ok(reply) case Err(e) => Err(Upstream(e))
    ensures env.requiresJson ==> 1 <= calls && IsOutcome(env, messages, calls - 1, r)
  {
    calls := 1;
    var completion;
    match env.complete(0, messages) {
      case Err(e) => return Err(Upstream(e)), calls;
      case Ok(reply) => completion := reply;
    }
    if !env.requiresJson {
      return Ok(completion), calls;
    }
    var usage, attempts, conversation := completion.usage, 0, messages;
    while true
      invariant attempts <= MAX_FORMAT_REPAIRS && calls == attempts + 1
      invariant conversation == Conversation(env, messages, attempts)
      invariant ReplyTo(env, messages, attempts) == Ok(completion)
      invariant usage == UsageThrough(env, messages, attempts)
      invariant forall k | 0 <= k < attempts :: Rejected(env, messages, k)
      decreases MAX_FORMAT_REPAIRS - attempts
    {
      match env.validate(completion.text) {
        case Ok(json) => return Ok(Reply(json, usage)), calls;
        case Err(e) =>
          if attempts >= MAX_FORMAT_REPAIRS {
            return Err(ResponseFormat(e)), calls;
          }
          assert Rejected(env, messages, attempts);
          attempts := attempts + 1;
          conversation := conversation + [Message(Assistant, completion.text), Message(User, env.repair(e))];
          calls := calls + 1;
          match env.complete(attempts, conversation) {
            case Err(failure) => return Err(Upstream(failure)), calls;
            case Ok(reply) =>
              completion := reply;
              usage := usage.Merged(reply.usage);
          }
      }
    }
  }

  /** A request has exactly one outcome, and succeeds exactly when some call within the
      limit is answered with valid text after only rejected ones. */
  lemma OutcomeIsDetermined(
      env: Env, messages: seq<Message>, n: nat, r: Result<Reply, ApiError>, m: nat, q: Result<Reply, ApiError>)
    requires IsOutcome(env, messages, n, r) && IsOutcome(env, messages, m, q)
    ensures n == m && r == q
    ensures r.Ok? <==> exists k: nat :: k <= MAX_FORMAT_REPAIRS && Accepted(env, messages, k)
                         && forall j | 0 <= j < k :: Rejected(env, messages, j)
  {
    assert n < m ==> Rejected(env, messages, n);
    assert m < n ==> Rejected(env, messages, m);
    if r.Ok? {
      assert Accepted(env, messages, n);
    } else if k: nat :|
      && k <= MAX_FORMAT_REPAIRS && Accepted(env, messages, k)
      && forall j | 0 <= j < k :: Rejected(env, messages, j)
    {
      assert k < n ==> Rejected(env, messages, k);
      assert n < k ==> Rejected(env, messages, n);
    }
  }

  /** `f(0) + … + f(n)`. */
  function SumTo(n: nat, f: nat -> nat): nat {
    f(n) + if n == 0 then 0 else SumTo(n - 1, f)
  }

  function UsageOf(env: Env, messages: seq<Message>, k: nat): Usage {
    match ReplyTo(env, messages, k)
    case Ok(reply) => reply.usage
    case Err(_) => Usage(0, 0, 0, 0, 0)
  }

  /** The usage returned is the sum over the calls made, counter by counter. */
  lemma {:induction false} UsageIsSum(env: Env, messages: seq<Message>, n: nat)
    ensures var u := UsageThrough(env, messages, n);
            && u.cacheCreation == SumTo(n, k => UsageOf(env, messages, k).cacheCreation)
            && u.cached == SumTo(n, k => UsageOf(env, messages, k).cached)
            && u.input == SumTo(n, k => UsageOf(env, messages, k).input)
            && u.output == SumTo(n, k => UsageOf(env, messages, k).output)
            && u.total == SumTo(n, k => UsageOf(env, messages, k).total)
  {
    if n > 0 {
      UsageIsSum(env, messages, n - 1);
    }
  }

  /** Every rejected reply goes back to the model with the repair prompt for its own error, after
      the request's messages and the earlier exchanges. */
  lemma {:induction false} RepairsAreAsked(env: Env, messages: seq<Message>, n: nat, k: nat)
    requires (forall j | 0 <= j < n :: Rejected(env, messages, j)) && k < n
    ensures var c, at := Conversation(env, messages, n), |messages| + 2 * k;
            && |c| == |messages| + 2 * n && messages <= c && ReplyTo(env, messages, n) == env.complete(n, c)
            && env.complete(k, c[..at]).Ok?
            && var text := env.complete(k, c[..at]).value.text;
               env.validate(text).Err? &&
               c[at] == Message(Assistant, text) && c[at + 1] == Message(User, env.repair(env.validate(text).error))
    ensures Conversation(env, messages, k) == Conversation(env, messages, n)[..|messages| + 2 * k]
  {
    assert Rejected(env, messages, n - 1);
    if n > 1 {
      RepairsAreAsked(env, messages, n - 1, if k < n - 1 then k else 0);
    }
    var c, before := Conversation(env, messages, n), Conversation(env, messages, n - 1);
    assert k < n - 1 ==> c[..|messages| + 2 * k] == before[..|messages| + 2 * k];
    assert k == n - 1 ==> c[..|messages| + 2 * k] == before;
  }

  /** Two repairs are allowed: three rejected replies in a row are given up. */
  lemma ThreeRejectionsGiveUp(env: Env, messages: seq<Message>, n: nat, r: Result<Reply, ApiError>)
    requires IsOutcome(env, messages, n, r)
    requires Rejected(env, messages, 0) && Rejected(env, messages, 1) && Rejected(env, messages, 2)
    ensures n == 2 && r == Err(ResponseFormat(env.validate(ReplyTo(env, messages, 2).value.text).error))
  {
  }

  predicate Accepted(env: Env, messages: seq<Message>, k: nat) {
    ReplyTo(env, messages, k).Ok? && env.validate(ReplyTo(env, messages, k).value.text).Ok?
  }
}
