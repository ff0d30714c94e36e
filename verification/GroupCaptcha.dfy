/** The one-shot captcha store of consent_captcha.py. `hash` stands for SHA-256 hex. */
module GroupCaptcha {
  import opened Common
  import Hex

  const DEFAULT_TTL: real := 300.0
  const DEFAULT_MAX_ATTEMPTS := 3

  // ----- The derived challenge -----

  datatype Operator = Plus | Minus | Times
  datatype Prompt = Prompt(lhs: nat, op: Operator, rhs: nat)

  function Solve(p: Prompt): int {
    match p.op
    case Plus => p.lhs + p.rhs
    case Minus => p.lhs - p.rhs
    case Times => p.lhs * p.rhs
  }

  /** What is ever asked: two digits from 1 to 9, the larger one first in a difference. */
  predicate Askable(p: Prompt) {
    1 <= p.lhs <= 9 && 1 <= p.rhs <= 9 && (p.op == Minus ==> p.rhs <= p.lhs)
  }

  /** The challenge and its answer value drawn from a digest. The answer solves the challenge, is
      never negative, and comes from a space of at most 82 values. */
  function Drawn(digest: bytes): (r: (Prompt, nat))
    requires |digest| == 32
    ensures r.1 == Solve(r.0) && r.1 <= 81
    ensures Askable(r.0)
    ensures multiset{r.0.lhs, r.0.rhs} == multiset{digest[0] % 9 + 1, digest[1] % 9 + 1}
    ensures r.0.op == [Plus, Minus, Times][digest[2] % 3]
    ensures r.0.op != Minus ==> r.0.lhs == digest[0] % 9 + 1
  {
    var a := digest[0] % 9 + 1;
    var b := digest[1] % 9 + 1;
    match digest[2] % 3
    case 0 => (Prompt(a, Plus, b), a + b)
    case 1 =>
      var lhs, rhs := if a >= b then a else b, if a >= b then b else a;
      (Prompt(lhs, Minus, rhs), lhs - rhs)
    case _ => ProductBound(a, b); (Prompt(a, Times, b), a * b)
  }

  /** Every askable challenge is drawn by some digest, and no other. */
  lemma DrawnIff(p: Prompt)
    ensures (exists digest: bytes :: |digest| == 32 && Drawn(digest).0 == p) <==> Askable(p)
  {
    if Askable(p) {
      var op := match p.op case Plus => 0 case Minus => 1 case Times => 2;
      var digest: bytes := [p.lhs - 1, p.rhs - 1, op] + seq(29, _ => 0);
      DigitKept(p.lhs);
      DigitKept(p.rhs);
      assert digest[0] == p.lhs - 1 && digest[1] == p.rhs - 1 && digest[2] % 3 == op;
      assert Drawn(digest).0 == p;
    }
  }

  lemma DigitKept(n: nat)
    requires 1 <= n <= 9
    ensures (n - 1) % 9 + 1 == n
  {
  }

  lemma ProductBound(a: nat, b: nat)
    requires a <= 9 && b <= 9
    ensures 0 <= a * b <= 81
  {
    assert a * b <= a * 9;
  }

  function Numeral(n: nat): (c: char)
    requires n < 10
    ensures '0' <= c <= '9' && c as int - '0' as int == n
  {
    '0' + n as char
  }

  /** An answer of at most two digits, as text. */
  function Decimal(n: nat): string
    requires n < 100
  {
    if n < 10 then [Numeral(n)] else [Numeral(n / 10), Numeral(n % 10)]
  }

  function Symbol(op: Operator): char {
    match op case Plus => '+' case Minus => '-' case Times => '*'
  }

  const ASKS := "Sovereign captcha \U{2014} solve to be admitted: what is "

  function Ask(p: Prompt): string
    requires p.lhs < 10 && p.rhs < 10
  {
    ASKS + [Numeral(p.lhs), ' ', Symbol(p.op), ' ', Numeral(p.rhs), '?']
  }

  datatype Derived = Derived(id: string, prompt: string, answer: string)

  const CID_DOMAIN := "skcomms-captcha-cid:"
  const CHALLENGE_DOMAIN := "skcomms-captcha-v1:"

  function Octets(s: string): bytes {
    seq(|s|, i requires 0 <= i < |s| => s[i] as int % 256)
  }

  /** `sha256` yields 32 bytes. The id and the answer come from two domains of the seed. */
  function DeriveChallenge(sha256: bytes -> bytes, seed: bytes): (r: Derived)
    requires forall b :: |sha256(b)| == 32
    ensures |r.id| == 16 && forall i :: 0 <= i < 16 ==> Hex.IsDigit(r.id[i])
    ensures var p := Drawn(sha256(Octets(CHALLENGE_DOMAIN) + seed)).0;
            r.prompt == Ask(p) && 0 <= Solve(p) <= 81 && r.answer == Decimal(Solve(p))
  {
    var (p, value) := Drawn(sha256(Octets(CHALLENGE_DOMAIN) + seed));
    Derived(Hex.Encode(sha256(Octets(CID_DOMAIN) + seed))[..16], Ask(p), Decimal(value))
  }

  lemma AskNamesPrompt(p: Prompt, q: Prompt)
    requires p.lhs < 10 && p.rhs < 10 && q.lhs < 10 && q.rhs < 10
    ensures Ask(p) == Ask(q) <==> p == q
  {
    var n := |ASKS|;
    assert Ask(p)[n..] == [Numeral(p.lhs), ' ', Symbol(p.op), ' ', Numeral(p.rhs), '?'];
    assert Ask(q)[n..] == [Numeral(q.lhs), ' ', Symbol(q.op), ' ', Numeral(q.rhs), '?'];
    if Ask(p) == Ask(q) {
      assert Ask(p)[n..][0] == Ask(q)[n..][0] && Ask(p)[n..][2] == Ask(q)[n..][2] && Ask(p)[n..][4] == Ask(q)[n..][4];
    }
  }

  /** Reading the prompt is enough to solve it: the text names the one sum whose decimal is the
      answer, so challenges that read alike are answered alike. */
  lemma PromptTellsAnswer(sha256: bytes -> bytes, s0: bytes, s1: bytes, p: Prompt)
    requires forall b :: |sha256(b)| == 32
    requires p.lhs < 10 && p.rhs < 10 && DeriveChallenge(sha256, s0).prompt == Ask(p)
    ensures 0 <= Solve(p) < 100 && DeriveChallenge(sha256, s0).answer == Decimal(Solve(p))
    ensures DeriveChallenge(sha256, s1).prompt == DeriveChallenge(sha256, s0).prompt ==>
              DeriveChallenge(sha256, s1).answer == DeriveChallenge(sha256, s0).answer
  {
    var q0 := Drawn(sha256(Octets(CHALLENGE_DOMAIN) + s0)).0;
    var q1 := Drawn(sha256(Octets(CHALLENGE_DOMAIN) + s1)).0;
    AskNamesPrompt(q0, p);
    AskNamesPrompt(q0, q1);
  }

  // ----- The store -----

  datatype Challenge = Challenge(answerHash: string, createdAt: real, attempts: int, maxAttempts: int, ttl: real)
  type Store = map<string, Challenge>

  function GenerateSpec(s: Store, id: string, answerHash: string, maxAttempts: int, ttl: real, now: real): Store {
    s[id := Challenge(answerHash, now, 0, maxAttempts, ttl)]
  }

  /** Why a verification ended as it did. */
  datatype Check = Unknown | Expired | Spent | Passed | Wrong

  function Judge(s: Store, id: string, answerHash: string, now: real): Check {
    if id !in s then Unknown
    else if now - s[id].createdAt >= s[id].ttl then Expired
    else if s[id].attempts >= s[id].maxAttempts then Spent
    else if answerHash == s[id].answerHash then Passed
    else Wrong
  }

  /** The row under the id is in time, has attempts left and holds this answer's hash. */
  predicate RightAnswer(s: Store, id: string, answerHash: string, now: real) {
    && id in s && s[id].answerHash == answerHash
    && now < s[id].createdAt + s[id].ttl && s[id].attempts < s[id].maxAttempts
  }

  function VerifySpec(s: Store, id: string, answerHash: string, now: real): Store {
    match Judge(s, id, answerHash, now)
    case Unknown => s
    case Wrong =>
      if s[id].attempts + 1 >= s[id].maxAttempts then s - {id}
      else s[id := s[id].(attempts := s[id].attempts + 1)]
    case _ => s - {id}
  }

  class Captcha {
    const ttl: real
    const maxAttempts: int
    const hash: string -> string
    var rows: Store

    constructor (ttl: real, maxAttempts: int, hash: string -> string, stored: Store)
      ensures this.ttl == ttl && this.maxAttempts == maxAttempts && this.hash == hash && rows == stored
    {
      this.ttl := ttl;
      this.maxAttempts := maxAttempts;
      this.hash := hash;
      rows := stored;
    }

    method Generate(id: string, answer: string, now: real)
      modifies this
      ensures rows == GenerateSpec(old(rows), id, hash(answer), maxAttempts, ttl, now)
    {
      rows := rows[id := Challenge(hash(answer), now, 0, maxAttempts, ttl)];
    }

    method Verify(id: string, answer: string, now: real) returns (ok: bool)
      modifies this
      ensures rows == VerifySpec(old(rows), id, hash(answer), now)
      ensures ok <==> Judge(old(rows), id, hash(answer), now) == Passed
      ensures ok <==> RightAnswer(old(rows), id, hash(answer), now)
    {
      if id !in rows { return false; }
      var row := rows[id];
      if now - row.createdAt >= row.ttl {
        rows := rows - {id};
        return false;
      }
      if row.attempts >= row.maxAttempts {
        rows := rows - {id};
        return false;
      }
      if hash(answer) == row.answerHash {
        rows := rows - {id};
        return true;
      }
      var attempts := row.attempts + 1;
      if attempts >= row.maxAttempts {
        rows := rows - {id};
      } else {
        rows := rows[id := row.(attempts := attempts)];
      }
      return false;
    }
  }

  // ----- Budgets over whole runs -----

  datatype Op =
    | Generate(id: string, answerHash: string, maxAttempts: int, ttl: real, now: real)
    | Verify(id: string, answerHash: string, now: real)

  function Step(s: Store, op: Op): Store {
    match op
    case Generate(id, h, max, ttl, now) => GenerateSpec(s, id, h, max, ttl, now)
    case Verify(id, h, now) => VerifySpec(s, id, h, now)
  }

  function After(ops: seq<Op>): Store {
    if ops == [] then map[] else Step(After(ops[..|ops| - 1]), ops[|ops| - 1])
  }

  // ----- Passing, by history -----

  /** Calls on `id` after call `g`. */
  function CallsSince(ops: seq<Op>, g: nat, id: string): nat
    requires g < |ops|
  {
    if |ops| == g + 1 then 0
    else CallsSince(ops[..|ops| - 1], g, id) + if ops[|ops| - 1].id == id then 1 else 0
  }

  /** The call guesses wrong, in time, at the challenge that `issue` stored. */
  predicate WrongInTime(op: Op, issue: Op)
    requires issue.Generate?
  {
    op.Verify? && op.answerHash != issue.answerHash && op.now < issue.now + issue.ttl
  }

  /** The challenge that call `g` issued under `id` still stands after all of `ops`: it is the last
      issue, and since it came nothing but wrong guesses in time, fewer than its maximum. */
  ghost predicate Stands(ops: seq<Op>, g: nat, id: string)
    requires g < |ops|
  {
    && ops[g].Generate? && ops[g].id == id
    && (forall k :: g < k < |ops| && ops[k].id == id ==> WrongInTime(ops[k], ops[g]))
    && (CallsSince(ops, g, id) == 0 || CallsSince(ops, g, id) < ops[g].maxAttempts)
  }

  /** The row of a standing challenge. */
  function RowOf(ops: seq<Op>, g: nat): Challenge
    requires g < |ops| && ops[g].Generate?
  {
    Challenge(ops[g].answerHash, ops[g].now, CallsSince(ops, g, ops[g].id), ops[g].maxAttempts, ops[g].ttl)
  }

  lemma {:induction false} RowIff(ops: seq<Op>, id: string)
    ensures id in After(ops) <==> exists g :: 0 <= g < |ops| && Stands(ops, g, id)
    ensures forall g :: 0 <= g < |ops| && Stands(ops, g, id) ==> id in After(ops) && After(ops)[id] == RowOf(ops, g)
  {
    if ops != [] {
      var front, op := ops[..|ops| - 1], ops[|ops| - 1];
      assert ops == front + [op];
      RowIff(front, id);
      RowStep(After(front), op, id);
      hide Step, Stands, RowOf;
      if op.Generate? && op.id == id {
        StandsLast(front, op, id);
      } else if id in After(front) {
        var g :| 0 <= g < |front| && Stands(front, g, id);
        RowSurvives(front, op, g, id);
      }
      forall g | 0 <= g < |ops| && Stands(ops, g, id) ensures id in After(ops) && After(ops)[id] == RowOf(ops, g) {
        RowNext(front, op, g, id);
      }
    }
  }

  /** A challenge standing so far survives one more call. */
  ghost predicate StandsOn(front: seq<Op>, op: Op, g: nat, id: string)
    requires g < |front|
  {
    && Stands(front, g, id)
    && (op.id == id ==> WrongInTime(op, front[g]) && CallsSince(front, g, id) + 1 < front[g].maxAttempts)
  }

  lemma StandsNext(front: seq<Op>, op: Op, g: nat, id: string)
    requires g < |front|
    ensures Stands(front + [op], g, id) <==> StandsOn(front, op, g, id)
  {
    var ops := front + [op];
    assert ops[..|ops| - 1] == front;
    if Stands(ops, g, id) {
      forall k | g < k < |front| && front[k].id == id ensures WrongInTime(front[k], front[g]) { assert ops[k] == front[k]; }
    }
  }

  lemma RowSurvives(front: seq<Op>, op: Op, g: nat, id: string)
    requires g < |front| && Stands(front, g, id) && !(op.Generate? && op.id == id)
    requires id in After(front) && After(front)[id] == RowOf(front, g)
    ensures id in Step(After(front), op) <==> Stands(front + [op], g, id)
  {
    RowStep(After(front), op, id);
    StandsNext(front, op, g, id);
    hide Step, Stands;
  }

  lemma StandsLast(front: seq<Op>, op: Op, id: string)
    ensures Stands(front + [op], |front|, id) <==> op.Generate? && op.id == id
  {
  }

  /** What one call does to one row. */
  lemma RowStep(s: Store, op: Op, id: string)
    ensures var s' := Step(s, op);
            if op.id != id then (id in s' <==> id in s) && (id in s ==> s'[id] == s[id])
            else if op.Generate? then id in s' && s'[id] == Challenge(op.answerHash, op.now, 0, op.maxAttempts, op.ttl)
            else
              && (id in s' <==> id in s && op.answerHash != s[id].answerHash && op.now < s[id].createdAt + s[id].ttl
                                && s[id].attempts + 1 < s[id].maxAttempts)
              && (id in s' ==> s'[id] == s[id].(attempts := s[id].attempts + 1))
  {
  }

  lemma RowNext(front: seq<Op>, op: Op, g: nat, id: string)
    requires g < |front + [op]| && Stands(front + [op], g, id)
    requires forall j :: 0 <= j < |front| && Stands(front, j, id) ==> id in After(front) && After(front)[id] == RowOf(front, j)
    ensures id in After(front + [op]) && After(front + [op])[id] == RowOf(front + [op], g)
  {
    var ops := front + [op];
    assert ops[..|ops| - 1] == front;
    RowStep(After(front), op, id);
    if g < |front| {
      StandsNext(front, op, g, id);
      assert ops[g] == front[g];
    }
  }

  /** Over any interleaving and any clock: a guess passes exactly when the last issue of its id
      stored this answer's hash less than its ttl ago, and everything that came under the id since
      was a wrong guess in time, fewer of them than the attempts granted. */
  lemma PassedIff(ops: seq<Op>, id: string, answerHash: string, now: real)
    ensures Judge(After(ops), id, answerHash, now) == Passed <==> Answered(ops, id, answerHash, now)
  {
    RowIff(ops, id);
    hide Stands, After;
    if id in After(ops) {
      var g :| 0 <= g < |ops| && Stands(ops, g, id);
      StandsIssue(ops, g, id);
    }
    forall g | 0 <= g < |ops| && Stands(ops, g, id) ensures ops[g].Generate? && ops[g].id == id { StandsIssue(ops, g, id); }
  }

  lemma StandsIssue(ops: seq<Op>, g: nat, id: string)
    requires g < |ops| && Stands(ops, g, id)
    ensures ops[g].Generate? && ops[g].id == id
  {
  }

  ghost predicate Answered(ops: seq<Op>, id: string, answerHash: string, now: real) {
    exists g :: 0 <= g < |ops| && Stands(ops, g, id) && ops[g].answerHash == answerHash
                && now < ops[g].now + ops[g].ttl && CallsSince(ops, g, id) < ops[g].maxAttempts
  }

  function Left(c: Challenge): nat {
    if c.attempts < c.maxAttempts then c.maxAttempts - c.attempts else 0
  }

  /** Guesses the live challenges can still absorb. */
  ghost function Remaining(s: Store): nat {
    if s == map[] then 0 else var id :| id in s; Left(s[id]) + Remaining(s - {id})
  }

  lemma {:induction false} RemainingWithout(s: Store, id: string)
    requires id in s
    ensures Remaining(s) == Left(s[id]) + Remaining(s - {id})
    decreases |s|
  {
    var k :| k in s && Remaining(s) == Left(s[k]) + Remaining(s - {k});
    if k != id {
      RemainingWithout(s - {k}, id);
      RemainingWithout(s - {id}, k);
      assert s - {k} - {id} == s - {id} - {k};
    }
  }

  lemma RemainingUpdate(s: Store, id: string, c: Challenge)
    ensures Remaining(s[id := c]) == Left(c) + Remaining(s - {id})
  {
    RemainingWithout(s[id := c], id);
    assert s[id := c] - {id} == s - {id};
  }

  lemma RemainingShrinks(s: Store, id: string)
    ensures Remaining(s - {id}) <= Remaining(s)
  {
    if id in s { RemainingWithout(s, id); } else { assert s - {id} == s; }
  }

  lemma SizeUpdate(s: Store, id: string, c: Challenge)
    ensures |s[id := c]| == |s - {id}| + 1
    ensures |s| == |s - {id}| + Count(id in s)
  {
    SizeWithout(s, id);
    SizeWithout(s[id := c], id);
    assert (s[id := c] - {id}).Keys == (s - {id}).Keys;
  }

  lemma SizeWithout(s: Store, id: string)
    ensures |(s - {id}).Keys| == |s - {id}| && |s| == |(s - {id}).Keys| + Count(id in s)
  {
    var keys := (s - {id}).Keys;
    assert keys == s.Keys - {id};
    assert |s| == |s.Keys|;
  }

  /** Where every challenge ever issued has gone, and every attempt ever granted. */
  datatype Ledger = Ledger(issued: nat, replaced: nat, passed: nat, lapsed: nat, exhausted: nat,
                           granted: nat, wrong: nat)

  function Count(b: bool): nat { if b then 1 else 0 }

  /** How one call is entered in the books. */
  function Account(l: Ledger, s: Store, op: Op): Ledger {
    match op
    case Generate(id, _, max, _, _) =>
      l.(issued := l.issued + 1, replaced := l.replaced + Count(id in s),
         granted := l.granted + if max > 0 then max else 0)
    case Verify(id, h, now) =>
      var j := Judge(s, id, h, now);
      l.(passed := l.passed + Count(j == Passed),
         lapsed := l.lapsed + Count(j == Expired || j == Spent),
         exhausted := l.exhausted + Count(j == Wrong && s[id].attempts + 1 >= s[id].maxAttempts),
         wrong := l.wrong + Count(j == Wrong))
  }

  function Tally(ops: seq<Op>): Ledger {
    if ops == [] then Ledger(0, 0, 0, 0, 0, 0, 0)
    else Account(Tally(ops[..|ops| - 1]), After(ops[..|ops| - 1]), ops[|ops| - 1])
  }

  ghost predicate Balanced(l: Ledger, s: Store) {
    && l.issued == |s| + l.replaced + l.passed + l.lapsed + l.exhausted
    && l.wrong + Remaining(s) <= l.granted
  }

  lemma IssueBalances(l: Ledger, s: Store, op: Op)
    requires op.Generate? && Balanced(l, s)
    ensures Balanced(Account(l, s, op), Step(s, op))
  {
    hide Remaining;
    var c := Challenge(op.answerHash, op.now, 0, op.maxAttempts, op.ttl);
    RemainingUpdate(s, op.id, c);
    SizeUpdate(s, op.id, c);
    RemainingShrinks(s, op.id);
  }

  lemma VerifyBalances(l: Ledger, s: Store, op: Op)
    requires op.Verify? && Balanced(l, s)
    ensures Balanced(Account(l, s, op), Step(s, op))
  {
    hide Remaining;
    if op.id in s {
      var c := s[op.id].(attempts := s[op.id].attempts + 1);
      RemainingUpdate(s, op.id, c);
      SizeUpdate(s, op.id, c);
      RemainingWithout(s, op.id);
    }
  }

  /** Conservation of challenges and the guess budget, over any interleaving of calls and any
      clock: each issued challenge is live or ended in exactly one way, so passes never exceed
      issues; wrong guesses plus the guesses still open never exceed the attempts granted. */
  lemma {:induction false} ChallengesConserved(ops: seq<Op>)
    ensures var l, s := Tally(ops), After(ops);
            && l.issued == |s| + l.replaced + l.passed + l.lapsed + l.exhausted
            && l.wrong + Remaining(s) <= l.granted
  {
    if ops == [] {
    } else {
      hide Account, Step, Remaining;
      var front, op := ops[..|ops| - 1], ops[|ops| - 1];
      ChallengesConserved(front);
      if op.Generate? {
        IssueBalances(Tally(front), After(front), op);
      } else {
        VerifyBalances(Tally(front), After(front), op);
      }
    }
  }

  /** One shot: a challenge that passed, or used up its attempts, answers no one until issued again. */
  lemma {:induction false} NoPassWithoutIssue(s: Store, ops: seq<Op>, id: string, h: string, now: real)
    requires id !in s
    requires forall op :: op in ops ==> !(op.Generate? && op.id == id)
    ensures Judge(Replay(s, ops), id, h, now) == Unknown
  {
    if ops != [] {
      var front := ops[..|ops| - 1];
      NoPassWithoutIssue(s, front, id, h, now);
      assert forall op :: op in front ==> op in ops;
      assert ops[|ops| - 1] in ops;
    }
  }

  function Replay(s: Store, ops: seq<Op>): Store {
    if ops == [] then s else Step(Replay(s, ops[..|ops| - 1]), ops[|ops| - 1])
  }

  /** A pass ends its challenge, and so does the last wrong guess it allows. */
  lemma EndedChallenges(s: Store, id: string, h: string, now: real)
    ensures var j := Judge(s, id, h, now);
            id !in VerifySpec(s, id, h, now) <==>
            j != Wrong || s[id].attempts + 1 >= s[id].maxAttempts
    ensures forall k :: k != id ==> (k in VerifySpec(s, id, h, now) <==> k in s)
                                    && (k in s ==> VerifySpec(s, id, h, now)[k] == s[k])
  {
  }
}
