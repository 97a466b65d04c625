/**
 * The condition language of the `members` command: whitespace-separated
 * tokens `(`, `)`, `and`, `or`, `not` and `@role`, checked token by token and
 * then evaluated as a Python expression once per guild member.
 *
 * The command hands the text to Python's `eval`, so the grammar and the
 * precedence are Python's: a call trailer `( … )` binds tightest, then
 * `not`, then `and`, then `or`; `( )` as an operand is the empty tuple,
 * which is false. Here the text is parsed into an explicit predicate tree
 * instead.
 */
module RoleQuery {
  import opened Wrappers
  import opened Text

  const Operators: seq<string> := ["(", ")", "or", "and", "not"]

  predicate IsRoleToken(t: string) {
    |t| > 0 && t[0] == '@'
  }

  /** A token the command accepts. */
  predicate IsValidToken(t: string) {
    t in Operators || IsRoleToken(t)
  }

  /** `roles.strip("`").split()`. */
  function Tokens(roles: string): seq<string> {
    Split(Strip(roles, '`'))
  }

  /**
   * The keys of the dictionary the validation loop fills: the names of the
   * role tokens, each once, in order of first occurrence.
   */
  function DictKeys(tokens: seq<string>): seq<string> {
    if tokens == [] then []
    else
      var keys := DictKeys(tokens[..|tokens| - 1]);
      var t := tokens[|tokens| - 1];
      if IsRoleToken(t) && t[1..] !in keys then keys + [t[1..]] else keys
  }

  /** The role names the tokens mention. */
  function RoleNames(tokens: seq<string>): set<string> {
    set t | t in tokens && IsRoleToken(t) :: t[1..]
  }

  predicate Distinct(names: seq<string>) {
    forall i, j :: 0 <= i < j < |names| ==> names[i] != names[j]
  }

  /** The dictionary keys are exactly the names mentioned, with no repetition. */
  lemma {:induction false} DictKeysAreRoleNames(tokens: seq<string>)
    ensures Distinct(DictKeys(tokens))
    ensures forall n :: n in DictKeys(tokens) <==> n in RoleNames(tokens)
  {
    if tokens != [] {
      var init := tokens[..|tokens| - 1];
      DictKeysAreRoleNames(init);
      assert forall k :: 0 <= k < |init| ==> init[k] == tokens[k];
      var t := tokens[|tokens| - 1];
      forall n ensures n in RoleNames(tokens) <==> n in RoleNames(init) || (IsRoleToken(t) && n == t[1..]) {
        if n in RoleNames(tokens) {
          var t' :| t' in tokens && IsRoleToken(t') && t'[1..] == n;
          var k :| 0 <= k < |tokens| && tokens[k] == t';
          if k < |init| {
            assert t' in init;
          }
        }
        if IsRoleToken(t) && n == t[1..] {
          assert tokens[|tokens| - 1] == t;
        }
      }
    }
  }

  /**
   * The validation loop: stops at the first token that is neither an
   * operator nor a role reference ("Unrecognized input"); otherwise yields
   * the dictionary's keys.
   */
  method Validate(tokens: seq<string>) returns (keys: Option<seq<string>>)
    ensures keys.None? <==> exists k :: 0 <= k < |tokens| && !IsValidToken(tokens[k])
    ensures keys.Some? ==> keys.value == DictKeys(tokens)
  {
    var dict: seq<string> := [];
    var i := 0;
    while i < |tokens|
      invariant 0 <= i <= |tokens|
      invariant forall k :: 0 <= k < i ==> IsValidToken(tokens[k])
      invariant dict == DictKeys(tokens[..i])
    {
      var t := tokens[i];
      assert tokens[..i + 1][..i] == tokens[..i];
      if !(t in Operators) && !(|t| > 0 && t[0] == '@') {
        return None;
      }
      if |t| > 0 && t[0] == '@' {
        if t[1..] !in dict {
          dict := dict + [t[1..]];
        }
      }
      i := i + 1;
    }
    assert tokens[..i] == tokens;
    return Some(dict);
  }

  /** A condition over one member's roles. */
  datatype Pred =
    | Ref(name: string)
      /** `( )`: Python's empty tuple, which is false. */
    | EmptyTuple
    | Not(operand: Pred)
    | And(left: Pred, right: Pred)
    | Or(left: Pred, right: Pred)
      /** `callee ( )`: a call trailer without an argument. */
    | Call(callee: Pred)
      /** `callee ( argument )`. */
    | CallWith(callee: Pred, argument: Pred)

  /** A parse of a prefix of the tokens: the tree and the tokens left over. */
  type Parsed = Option<(Pred, seq<string>)>

  /** `or_test: and_test ("or" and_test)*` */
  function ParseOr(ts: seq<string>): (r: Parsed)
    ensures r.Some? ==> |r.value.1| < |ts|
    decreases |ts|, 4
  {
    match ParseAnd(ts)
    case None => None
    case Some((left, rest)) => OrTail(left, rest)
  }

  function OrTail(left: Pred, ts: seq<string>): (r: Parsed)
    ensures r.Some? ==> |r.value.1| <= |ts|
    decreases |ts|, 5
  {
    if ts != [] && ts[0] == "or" then
      match ParseAnd(ts[1..])
      case None => None
      case Some((right, rest)) => OrTail(Or(left, right), rest)
    else Some((left, ts))
  }

  /** `and_test: not_test ("and" not_test)*` */
  function ParseAnd(ts: seq<string>): (r: Parsed)
    ensures r.Some? ==> |r.value.1| < |ts|
    decreases |ts|, 3
  {
    match ParseNot(ts)
    case None => None
    case Some((left, rest)) => AndTail(left, rest)
  }

  function AndTail(left: Pred, ts: seq<string>): (r: Parsed)
    ensures r.Some? ==> |r.value.1| <= |ts|
    decreases |ts|, 5
  {
    if ts != [] && ts[0] == "and" then
      match ParseNot(ts[1..])
      case None => None
      case Some((right, rest)) => AndTail(And(left, right), rest)
    else Some((left, ts))
  }

  /** `not_test: "not" not_test | power` */
  function ParseNot(ts: seq<string>): (r: Parsed)
    ensures r.Some? ==> |r.value.1| < |ts|
    decreases |ts|, 2
  {
    if ts != [] && ts[0] == "not" then
      match ParseNot(ts[1..])
      case None => None
      case Some((operand, rest)) => Some((Not(operand), rest))
    else ParsePower(ts)
  }

  /** `power: atom trailer*` */
  function ParsePower(ts: seq<string>): (r: Parsed)
    ensures r.Some? ==> |r.value.1| < |ts|
    decreases |ts|, 1
  {
    match ParseAtom(ts)
    case None => None
    case Some((atom, rest)) => Trailers(atom, rest)
  }

  /** `trailer: "(" ")" | "(" or_test ")"`, each one calling what precedes it. */
  function Trailers(callee: Pred, ts: seq<string>): (r: Parsed)
    ensures r.Some? ==> |r.value.1| <= |ts|
    decreases |ts|, 5
  {
    if ts != [] && ts[0] == "(" then
      if |ts| > 1 && ts[1] == ")" then Trailers(Call(callee), ts[2..])
      else match ParseOr(ts[1..])
        case None => None
        case Some((argument, rest)) =>
          if rest != [] && rest[0] == ")" then Trailers(CallWith(callee, argument), rest[1..]) else None
    else Some((callee, ts))
  }

  /** `atom: "(" ")" | "(" or_test ")" | @role` */
  function ParseAtom(ts: seq<string>): (r: Parsed)
    ensures r.Some? ==> |r.value.1| < |ts|
    decreases |ts|, 0
  {
    if ts == [] then None
    else if ts[0] == "(" then
      if |ts| > 1 && ts[1] == ")" then Some((EmptyTuple, ts[2..]))
      else match ParseOr(ts[1..])
        case None => None
        case Some((inner, rest)) =>
          if rest != [] && rest[0] == ")" then Some((inner, rest[1..])) else None
    else if IsRoleToken(ts[0]) then Some((Ref(ts[0][1..]), ts[1..]))
    else None
  }

  /** The names of the roles a condition refers to. */
  function RefNames(p: Pred): set<string> {
    match p
    case Ref(name) => {name}
    case EmptyTuple => {}
    case Not(q) => RefNames(q)
    case And(l, r) => RefNames(l) + RefNames(r)
    case Or(l, r) => RefNames(l) + RefNames(r)
    case Call(c) => RefNames(c)
    case CallWith(c, a) => RefNames(c) + RefNames(a)
  }

  /** The whole token list as one expression; `None` where Python raises SyntaxError. */
  function Parse(ts: seq<string>): Option<Pred> {
    match ParseOr(ts)
    case Some((p, rest)) => if rest == [] then Some(p) else None
    case None => None
  }

  /**
   * A partial parse of `ts` that takes its leftover tokens from `ts` and
   * refers only to roles named in `ts` or in `known`.
   */
  predicate Covered(ts: seq<string>, known: set<string>, r: Parsed) {
    r.Some? ==> (forall t :: t in r.value.1 ==> t in ts) && RefNames(r.value.0) <= known + RoleNames(ts)
  }

  lemma RoleNamesGrow(a: seq<string>, b: seq<string>)
    requires forall t :: t in a ==> t in b
    ensures RoleNames(a) <= RoleNames(b)
  {
  }

  lemma {:induction false} OrRefs(ts: seq<string>)
    ensures Covered(ts, {}, ParseOr(ts))
    decreases |ts|, 4
  {
    AndRefs(ts);
    match ParseAnd(ts)
    case None =>
    case Some((left, rest)) =>
      OrTailRefs(left, rest);
      RoleNamesGrow(rest, ts);
  }

  lemma {:induction false} OrTailRefs(left: Pred, ts: seq<string>)
    ensures Covered(ts, RefNames(left), OrTail(left, ts))
    decreases |ts|, 5
  {
    if ts != [] && ts[0] == "or" {
      AndRefs(ts[1..]);
      match ParseAnd(ts[1..])
      case None =>
      case Some((right, rest)) =>
        OrTailRefs(Or(left, right), rest);
        RoleNamesGrow(rest, ts);
        RoleNamesGrow(ts[1..], ts);
    }
  }

  lemma {:induction false} AndRefs(ts: seq<string>)
    ensures Covered(ts, {}, ParseAnd(ts))
    decreases |ts|, 3
  {
    NotRefs(ts);
    match ParseNot(ts)
    case None =>
    case Some((left, rest)) =>
      AndTailRefs(left, rest);
      RoleNamesGrow(rest, ts);
  }

  lemma {:induction false} AndTailRefs(left: Pred, ts: seq<string>)
    ensures Covered(ts, RefNames(left), AndTail(left, ts))
    decreases |ts|, 5
  {
    if ts != [] && ts[0] == "and" {
      NotRefs(ts[1..]);
      match ParseNot(ts[1..])
      case None =>
      case Some((right, rest)) =>
        AndTailRefs(And(left, right), rest);
        RoleNamesGrow(rest, ts);
        RoleNamesGrow(ts[1..], ts);
    }
  }

  lemma {:induction false} NotRefs(ts: seq<string>)
    ensures Covered(ts, {}, ParseNot(ts))
    decreases |ts|, 2
  {
    if ts != [] && ts[0] == "not" {
      NotRefs(ts[1..]);
      RoleNamesGrow(ts[1..], ts);
    } else {
      PowerRefs(ts);
    }
  }

  lemma {:induction false} PowerRefs(ts: seq<string>)
    ensures Covered(ts, {}, ParsePower(ts))
    decreases |ts|, 1
  {
    AtomRefs(ts);
    match ParseAtom(ts)
    case None =>
    case Some((atom, rest)) =>
      TrailersRefs(atom, rest);
      RoleNamesGrow(rest, ts);
  }

  lemma {:induction false} TrailersRefs(callee: Pred, ts: seq<string>)
    ensures Covered(ts, RefNames(callee), Trailers(callee, ts))
    decreases |ts|, 5
  {
    if ts != [] && ts[0] == "(" {
      if |ts| > 1 && ts[1] == ")" {
        TrailersRefs(Call(callee), ts[2..]);
        RoleNamesGrow(ts[2..], ts);
      } else {
        OrRefs(ts[1..]);
        RoleNamesGrow(ts[1..], ts);
        match ParseOr(ts[1..])
        case None =>
        case Some((argument, rest)) =>
          if rest != [] && rest[0] == ")" {
            TrailersRefs(CallWith(callee, argument), rest[1..]);
            RoleNamesGrow(rest[1..], ts);
          }
      }
    }
  }

  lemma {:induction false} AtomRefs(ts: seq<string>)
    ensures Covered(ts, {}, ParseAtom(ts))
    decreases |ts|, 0
  {
    if ts != [] && ts[0] == "(" {
      if !(|ts| > 1 && ts[1] == ")") {
        OrRefs(ts[1..]);
        RoleNamesGrow(ts[1..], ts);
      }
    } else if ts != [] && IsRoleToken(ts[0]) {
      assert ts[0] in ts;
    }
  }

  /**
   * Every role a parsed query refers to is named by one of its tokens, and so
   * is a key of the dictionary the validation loop fills: each reference is
   * substituted.
   */
  lemma ParseRefs(ts: seq<string>)
    ensures Parse(ts).Some? ==> RefNames(Parse(ts).value) <= RoleNames(ts)
    ensures Parse(ts).Some? ==> forall n :: n in RefNames(Parse(ts).value) ==> n in DictKeys(ts)
  {
    OrRefs(ts);
    DictKeysAreRoleNames(ts);
  }

  /** A role of the guild, in the order the guild lists them. */
  datatype GuildRole = GuildRole(id: nat, name: string)

  /** `discord.utils.get(guild.roles, name=name)`: the first role with that name. */
  function FindRole(roles: seq<GuildRole>, name: string): (r: Option<GuildRole>)
    ensures r.None? <==> forall k :: 0 <= k < |roles| ==> roles[k].name != name
    ensures r.Some? ==> exists k :: (0 <= k < |roles| && roles[k] == r.value && roles[k].name == name &&
      forall j :: 0 <= j < k ==> roles[j].name != name)
  {
    if roles == [] then None
    else if roles[0].name == name then Some(roles[0])
    else
      var r := FindRole(roles[1..], name);
      if r.Some? then
        var k :| 0 <= k < |roles[1..]| && roles[1..][k] == r.value && roles[1..][k].name == name &&
          forall j :: 0 <= j < k ==> roles[1..][j].name != name;
        assert roles[k + 1] == r.value;
        r
      else r
  }

  /** `check(role, member)`: the member holds the guild's first role of that name. */
  function HasRole(roles: seq<GuildRole>, memberRoles: set<nat>, name: string): (held: bool)
    ensures held <==> exists k :: (0 <= k < |roles| && roles[k].name == name && roles[k].id in memberRoles &&
      forall j :: 0 <= j < k ==> roles[j].name != name)
  {
    match FindRole(roles, name)
    case None => false
    case Some(role) => role.id in memberRoles
  }

  /** The condition contains a call trailer somewhere. */
  predicate HasCall(p: Pred) {
    match p
    case Ref(_) => false
    case EmptyTuple => false
    case Not(q) => HasCall(q)
    case And(l, r) => HasCall(l) || HasCall(r)
    case Or(l, r) => HasCall(l) || HasCall(r)
    case Call(_) => true
    case CallWith(_, _) => true
  }

  /**
   * What `eval` gives for one member: the truth value, or `None` where it
   * raises. `and`/`or` short-circuit; a call is reached only if the operands
   * before it leave the result open, and calling a bool or a tuple raises
   * TypeError.
   */
  function Eval(p: Pred, roles: seq<GuildRole>, memberRoles: set<nat>): (v: Option<bool>)
    ensures !HasCall(p) ==> v.Some?
  {
    match p
    case Ref(name) => Some(HasRole(roles, memberRoles, name))
    case EmptyTuple => Some(false)
    case Not(q) =>
      (match Eval(q, roles, memberRoles)
       case None => None
       case Some(b) => Some(!b))
    case And(l, r) =>
      (match Eval(l, roles, memberRoles)
       case None => None
       case Some(b) => if !b then Some(false) else Eval(r, roles, memberRoles))
    case Or(l, r) =>
      (match Eval(l, roles, memberRoles)
       case None => None
       case Some(b) => if b then Some(true) else Eval(r, roles, memberRoles))
    case Call(_) => None
    case CallWith(_, _) => None
  }

  /** A reference to a role the guild does not have is false for every member. */
  lemma UnknownRoleIsFalse(name: string, roles: seq<GuildRole>, memberRoles: set<nat>)
    requires forall k :: 0 <= k < |roles| ==> roles[k].name != name
    ensures Eval(Ref(name), roles, memberRoles) == Some(false)
  {
  }

  /** Python's precedence: `and` groups before `or`, `not` before `and`, a call before `not`. */
  lemma Precedence()
    ensures Parse(["@a", "or", "@b", "and", "@c"]) == Some(Or(Ref("a"), And(Ref("b"), Ref("c"))))
    ensures Parse(["not", "@a", "and", "@b"]) == Some(And(Not(Ref("a")), Ref("b")))
    ensures Parse(["@a", "and"]) == None
    ensures Parse(["not", "(", ")"]) == Some(Not(EmptyTuple))
  {
    AndBeforeOr();
    NotBeforeAnd();
    DanglingAnd();
    NotEmptyTuple();
  }

  lemma AndBeforeOr()
    ensures Parse(["@a", "or", "@b", "and", "@c"]) == Some(Or(Ref("a"), And(Ref("b"), Ref("c"))))
  {
    assert "@a"[1..] == "a" && "@b"[1..] == "b" && "@c"[1..] == "c";
    var ts := ["@a", "or", "@b", "and", "@c"];
    var afterA := ["or", "@b", "and", "@c"];
    var andC := ["and", "@c"];
    assert ts == ["@a"] + afterA && afterA[1..] == ["@b"] + andC && andC[1..] == ["@c"] + [];
    RefNot("@a", afterA);
    RefNot("@b", andC);
    RefNot("@c", []);
    AndStep(Ref("b"), andC, Ref("c"), []);
    TailStops(And(Ref("b"), Ref("c")), []);
    ParseLevels(afterA[1..], Ref("b"), andC);
    TailStops(Ref("a"), afterA);
    ParseLevels(ts, Ref("a"), afterA);
    OrStep(Ref("a"), afterA, And(Ref("b"), Ref("c")), []);
    TailStops(Or(Ref("a"), And(Ref("b"), Ref("c"))), []);
  }

  lemma NotBeforeAnd()
    ensures Parse(["not", "@a", "and", "@b"]) == Some(And(Not(Ref("a")), Ref("b")))
  {
    assert "@a"[1..] == "a" && "@b"[1..] == "b";
    var us := ["not", "@a", "and", "@b"];
    var andB := ["and", "@b"];
    assert us[1..] == ["@a"] + andB && andB[1..] == ["@b"] + [];
    RefNot("@a", andB);
    RefNot("@b", []);
    assert ParseNot(us) == Some((Not(Ref("a")), andB));
    AndStep(Not(Ref("a")), andB, Ref("b"), []);
    TailStops(And(Not(Ref("a")), Ref("b")), []);
    ParseLevels(us, Not(Ref("a")), andB);
  }

  lemma DanglingAnd()
    ensures Parse(["@a", "and"]) == None
  {
    var vs := ["@a", "and"];
    assert vs == ["@a"] + ["and"] && "@a"[1..] == "a";
    RefNot("@a", ["and"]);
    ParseLevels(vs, Ref("a"), ["and"]);
    assert ParseNot(["and"]) == None;
  }

  lemma NotEmptyTuple()
    ensures Parse(["not", "(", ")"]) == Some(Not(EmptyTuple))
  {
    var ws := ["not", "(", ")"];
    assert ws[1..][2..] == [];
    TrailersStop(EmptyTuple, []);
    assert ParseAtom(ws[1..]) == Some((EmptyTuple, []));
    assert ParseNot(ws) == Some((Not(EmptyTuple), []));
    TailStops(Not(EmptyTuple), []);
    ParseLevels(ws, Not(EmptyTuple), []);
  }

  /** A call trailer binds tighter than `not`. */
  lemma CallPrecedence()
    ensures Parse(["not", "@a", "(", ")"]) == Some(Not(Call(Ref("a"))))
  {
    var ts := ["not", "@a", "(", ")"];
    assert ts[1..] == ["@a"] + ["(", ")"] && "@a"[1..] == "a";
    assert ParseAtom(ts[1..]) == Some((Ref("a"), ["(", ")"]));
    CallTrailer(Ref("a"), []);
    assert ["(", ")"] + [] == ["(", ")"];
    PowerStep(ts[1..], Ref("a"), ["(", ")"]);
    NotStep(ts, Call(Ref("a")), []);
    TailStops(Not(Call(Ref("a"))), []);
    ParseLevels(ts, Not(Call(Ref("a"))), []);
  }

  /** The argument of a call trailer. */
  lemma CallArgument()
    ensures Parse(["@a", "(", "@b", ")"]) == Some(CallWith(Ref("a"), Ref("b")))
  {
    var ts := ["@a", "(", "@b", ")"];
    var after := ["(", "@b", ")"];
    assert ts[1..] == after && "@a"[1..] == "a" && "@b"[1..] == "b";
    assert ParseAtom(ts) == Some((Ref("a"), after));
    assert after[1..] == ["@b"] + [")"];
    RefNot("@b", [")"]);
    assert [")"] + [] == [")"];
    ParseOrClosed(after[1..], Ref("b"), []);
    ArgumentStep(Ref("a"), after, Ref("b"), []);
    TrailersStop(CallWith(Ref("a"), Ref("b")), []);
    PowerStep(ts, Ref("a"), after);
    TailStops(CallWith(Ref("a"), Ref("b")), []);
    ParseLevels(ts, CallWith(Ref("a"), Ref("b")), []);
  }

  /**
   * `not ( ) or @a ( )` is an expression; the call is never reached, so it
   * holds for every member. In `@a or @b ( )` the call is reached, and
   * raises, exactly for the members without `@a`.
   */
  lemma CallsRaiseWhenReached(roles: seq<GuildRole>, memberRoles: set<nat>)
    ensures Parse(["not", "(", ")", "or", "@a", "(", ")"]) == Some(Or(Not(EmptyTuple), Call(Ref("a"))))
    ensures Eval(Or(Not(EmptyTuple), Call(Ref("a"))), roles, memberRoles) == Some(true)
    ensures Eval(Or(Ref("a"), Call(Ref("b"))), roles, memberRoles).None? <==> !HasRole(roles, memberRoles, "a")
  {
    UnreachedCallParses();
    assert Eval(EmptyTuple, roles, memberRoles) == Some(false);
    assert Eval(Not(EmptyTuple), roles, memberRoles) == Some(true);
  }

  lemma UnreachedCallParses()
    ensures Parse(["not", "(", ")", "or", "@a", "(", ")"]) == Some(Or(Not(EmptyTuple), Call(Ref("a"))))
  {
    var ts := ["not", "(", ")", "or", "@a", "(", ")"];
    var tail := ["or", "@a", "(", ")"];
    assert ts[1..] == ["(", ")"] + tail && tail[1..] == ["@a"] + ["(", ")"];
    assert ts[1..][2..] == tail;
    TrailersStop(EmptyTuple, tail);
    assert ParseAtom(ts[1..]) == Some((EmptyTuple, tail));
    assert ParseNot(ts[1..]) == Some((EmptyTuple, tail));
    NotStep(ts, EmptyTuple, tail);
    TailStops(Not(EmptyTuple), tail);
    ParseLevels(ts, Not(EmptyTuple), tail);
    assert tail[1..][0] == "@a" && "@a"[1..] == "a" && tail[1..][1..] == ["(", ")"];
    assert ParseAtom(tail[1..]) == Some((Ref("a"), ["(", ")"]));
    CallTrailer(Ref("a"), []);
    assert ["(", ")"] + [] == ["(", ")"];
    assert ParseNot(tail[1..]) == Some((Call(Ref("a")), []));
    TailStops(Call(Ref("a")), []);
    ParseLevels(tail[1..], Call(Ref("a")), []);
    OrStep(Not(EmptyTuple), tail, Call(Ref("a")), []);
    TailStops(Or(Not(EmptyTuple), Call(Ref("a"))), []);
  }

  /** A role reference followed by tokens that add no trailer. */
  lemma RefNot(t: string, rest: seq<string>)
    requires IsRoleToken(t) && EndsTrailers(rest)
    ensures ParseNot([t] + rest) == Some((Ref(t[1..]), rest))
  {
    var ts := [t] + rest;
    assert ts[0] == t && ts[1..] == rest;
    TrailersStop(Ref(t[1..]), rest);
    assert ParseAtom(ts) == Some((Ref(t[1..]), rest));
    assert ParsePower(ts) == Some((Ref(t[1..]), rest));
  }

  /** Fully parenthesised token form of a condition. */
  function Print(p: Pred): (ts: seq<string>)
    ensures ts != [] && ts[0] != ")" && ts[0] != "and" && ts[0] != "or"
  {
    match p
    case Ref(name) =>
      var t := "@" + name;
      assert t[0] == '@';
      [t]
    case EmptyTuple => ["(", ")"]
    case Not(q) => ["not"] + Print(q)
    case And(l, r) => ["("] + Print(l) + ["and"] + Print(r) + [")"]
    case Or(l, r) => ["("] + Print(l) + ["or"] + Print(r) + [")"]
    case Call(c) => ["("] + Print(c) + [")", "(", ")"]
    case CallWith(c, a) => ["("] + Print(c) + [")", "("] + Print(a) + [")"]
  }

  /** Tokens that cannot continue a printed condition as a trailer. */
  predicate EndsTrailers(rest: seq<string>) {
    rest == [] || rest[0] != "("
  }

  lemma {:induction false} ParseNotPrint(p: Pred, rest: seq<string>)
    requires EndsTrailers(rest)
    ensures ParseNot(Print(p) + rest) == Some((p, rest))
  {
    match p
    case Ref(name) => ParseRefPrint(name, rest);
    case EmptyTuple => ParseEmptyTuplePrint(rest);
    case Not(q) =>
      ParseNotPrint(q, rest);
      ParseNotNotPrint(q, rest);
    case And(l, r) =>
      ParseNotPrint(l, ["and"] + Print(r) + [")"] + rest);
      ParseNotPrint(r, [")"] + rest);
      ParseAndGroupPrint(l, r, rest);
    case Or(l, r) =>
      ParseNotPrint(l, ["or"] + Print(r) + [")"] + rest);
      ParseNotPrint(r, [")"] + rest);
      ParseOrGroupPrint(l, r, rest);
    case Call(c) =>
      ParseNotPrint(c, [")", "(", ")"] + rest);
      ParseCallPrint(c, rest);
    case CallWith(c, a) =>
      ParseNotPrint(c, [")"] + (["("] + Print(a) + [")"] + rest));
      ParseNotPrint(a, [")"] + rest);
      ParseCallWithPrint(c, a, rest);
  }

  /** Without a following `(`, no trailer is added. */
  lemma TrailersStop(p: Pred, ts: seq<string>)
    requires EndsTrailers(ts)
    ensures Trailers(p, ts) == Some((p, ts))
  {
  }

  lemma ParseRefPrint(name: string, rest: seq<string>)
    requires EndsTrailers(rest)
    ensures ParseNot(Print(Ref(name)) + rest) == Some((Ref(name), rest))
  {
    var ts := Print(Ref(name)) + rest;
    assert ts[0] == "@" + name && ts[1..] == rest;
    assert ("@" + name)[1..] == name;
    TrailersStop(Ref(name), rest);
    assert ParseAtom(ts) == Some((Ref(name), rest));
    assert ParsePower(ts) == Some((Ref(name), rest));
  }

  lemma ParseEmptyTuplePrint(rest: seq<string>)
    requires EndsTrailers(rest)
    ensures ParseNot(Print(EmptyTuple) + rest) == Some((EmptyTuple, rest))
  {
    var ts := Print(EmptyTuple) + rest;
    assert ts[2..] == rest;
    TrailersStop(EmptyTuple, rest);
    assert ParseAtom(ts) == Some((EmptyTuple, rest));
    assert ParsePower(ts) == Some((EmptyTuple, rest));
  }

  lemma ParseNotNotPrint(q: Pred, rest: seq<string>)
    requires ParseNot(Print(q) + rest) == Some((q, rest))
    ensures ParseNot(Print(Not(q)) + rest) == Some((Not(q), rest))
  {
    assert Print(Not(q)) == ["not"] + Print(q);
    NotTokens(Print(q), rest);
    NotStep(["not"] + Print(q) + rest, q, rest);
  }

  lemma NotTokens(pq: seq<string>, rest: seq<string>)
    ensures (["not"] + pq + rest)[0] == "not" && (["not"] + pq + rest)[1..] == pq + rest
  {
  }

  lemma NotStep(ts: seq<string>, q: Pred, rest: seq<string>)
    requires ts != [] && ts[0] == "not" && ParseNot(ts[1..]) == Some((q, rest))
    ensures ParseNot(ts) == Some((Not(q), rest))
  {
  }

  /** One unfolding of `ParseAnd` and `ParseOr` each. */
  lemma ParseLevels(ts: seq<string>, p: Pred, rest: seq<string>)
    requires ParseNot(ts) == Some((p, rest))
    ensures ParseAnd(ts) == AndTail(p, rest)
    ensures AndTail(p, rest).Some? ==> ParseOr(ts) == OrTail(AndTail(p, rest).value.0, AndTail(p, rest).value.1)
  {
  }

  /** A tail that does not start with its operator ends the chain. */
  lemma TailStops(p: Pred, ts: seq<string>)
    ensures ts == [] || ts[0] != "and" ==> AndTail(p, ts) == Some((p, ts))
    ensures ts == [] || ts[0] != "or" ==> OrTail(p, ts) == Some((p, ts))
  {
  }

  /** A condition followed by `)` is read whole by `ParseOr`. */
  lemma ParseOrClosed(ts: seq<string>, p: Pred, rest: seq<string>)
    requires ParseNot(ts) == Some((p, [")"] + rest))
    ensures ParseOr(ts) == Some((p, [")"] + rest))
  {
    TailStops(p, [")"] + rest);
    ParseLevels(ts, p, [")"] + rest);
  }

  /** `( inner )` as an atom, once `inner` has been parsed. */
  lemma GroupAtom(ts: seq<string>, inner: Pred, rest: seq<string>)
    requires |ts| > 1 && ts[0] == "(" && ts[1] != ")"
    requires ParseOr(ts[1..]) == Some((inner, [")"] + rest))
    ensures ParseAtom(ts) == Some((inner, rest))
  {
    assert ([")"] + rest)[1..] == rest;
  }

  /** A group without trailers after it. */
  lemma GroupNot(ts: seq<string>, inner: Pred, rest: seq<string>)
    requires |ts| > 1 && ts[0] == "(" && ts[1] != ")" && EndsTrailers(rest)
    requires ParseOr(ts[1..]) == Some((inner, [")"] + rest))
    ensures ParseNot(ts) == Some((inner, rest))
  {
    GroupAtom(ts, inner, rest);
    TrailersStop(inner, rest);
  }

  lemma AndStep(l: Pred, ts: seq<string>, r: Pred, rest: seq<string>)
    requires ts != [] && ts[0] == "and" && ParseNot(ts[1..]) == Some((r, rest))
    ensures AndTail(l, ts) == AndTail(And(l, r), rest)
  {
  }

  lemma OrStep(l: Pred, ts: seq<string>, r: Pred, rest: seq<string>)
    requires ts != [] && ts[0] == "or" && ParseAnd(ts[1..]) == Some((r, rest))
    ensures OrTail(l, ts) == OrTail(Or(l, r), rest)
  {
  }

  /** How the tokens of a printed group split up. */
  lemma GroupTokens(a: seq<string>, op: string, b: seq<string>, rest: seq<string>)
    ensures (["("] + a + [op] + b + [")"] + rest)[1..] == a + ([op] + b + [")"] + rest)
    ensures ([op] + b + [")"] + rest)[1..] == b + ([")"] + rest)
    ensures ([op] + b + [")"] + rest)[0] == op
  {
  }

  /** The step of `ParseNotPrint` for a parenthesised `and`. */
  lemma ParseAndGroupPrint(l: Pred, r: Pred, rest: seq<string>)
    requires EndsTrailers(rest)
    requires ParseNot(Print(l) + (["and"] + Print(r) + [")"] + rest))
      == Some((l, ["and"] + Print(r) + [")"] + rest))
    requires ParseNot(Print(r) + ([")"] + rest)) == Some((r, [")"] + rest))
    ensures ParseNot(["("] + Print(l) + ["and"] + Print(r) + [")"] + rest) == Some((And(l, r), rest))
  {
    var close := [")"] + rest;
    var afterL := ["and"] + Print(r) + [")"] + rest;
    var ts := ["("] + Print(l) + ["and"] + Print(r) + [")"] + rest;
    GroupTokens(Print(l), "and", Print(r), rest);
    TailStops(And(l, r), close);
    AndStep(l, afterL, r, close);
    ParseLevels(ts[1..], l, afterL);
    GroupNot(ts, And(l, r), rest);
  }

  /** The step of `ParseNotPrint` for a parenthesised `or`. */
  lemma ParseOrGroupPrint(l: Pred, r: Pred, rest: seq<string>)
    requires EndsTrailers(rest)
    requires ParseNot(Print(l) + (["or"] + Print(r) + [")"] + rest))
      == Some((l, ["or"] + Print(r) + [")"] + rest))
    requires ParseNot(Print(r) + ([")"] + rest)) == Some((r, [")"] + rest))
    ensures ParseNot(["("] + Print(l) + ["or"] + Print(r) + [")"] + rest) == Some((Or(l, r), rest))
  {
    var close := [")"] + rest;
    var afterL := ["or"] + Print(r) + [")"] + rest;
    var ts := ["("] + Print(l) + ["or"] + Print(r) + [")"] + rest;
    GroupTokens(Print(l), "or", Print(r), rest);
    TailStops(l, afterL);
    TailStops(r, close);
    TailStops(Or(l, r), close);
    ParseLevels(afterL[1..], r, close);
    OrStep(l, afterL, r, close);
    ParseLevels(ts[1..], l, afterL);
    GroupNot(ts, Or(l, r), rest);
  }

  /** How the tokens of a printed call without an argument split up. */
  lemma CallTokens(c: seq<string>, rest: seq<string>)
    ensures (["("] + c + [")", "(", ")"] + rest)[1..] == c + ([")"] + (["(", ")"] + rest))
    ensures (["("] + c + [")", "(", ")"] + rest)[0] == "("
    ensures [")", "(", ")"] + rest == [")"] + (["(", ")"] + rest)
  {
  }

  /** The step of `ParseNotPrint` for `( callee ) ( )`. */
  lemma ParseCallPrint(c: Pred, rest: seq<string>)
    requires EndsTrailers(rest)
    requires ParseNot(Print(c) + ([")", "(", ")"] + rest)) == Some((c, [")", "(", ")"] + rest))
    ensures ParseNot(Print(Call(c)) + rest) == Some((Call(c), rest))
  {
    var after := ["(", ")"] + rest;
    assert Print(Call(c)) == ["("] + Print(c) + [")", "(", ")"];
    var ts := Print(Call(c)) + rest;
    CallTokens(Print(c), rest);
    CalleeGroup(ts, c, after);
    CallTrailer(c, rest);
    PowerStep(ts, c, after);
  }

  /** `( callee )` heads the tokens of a printed call. */
  lemma CalleeGroup(ts: seq<string>, c: Pred, after: seq<string>)
    requires |ts| > 1 && ts[0] == "(" && ts[1..] == Print(c) + ([")"] + after)
    requires ParseNot(Print(c) + ([")"] + after)) == Some((c, [")"] + after))
    ensures ParseAtom(ts) == Some((c, after))
  {
    assert ts[1] == Print(c)[0];
    ParseOrClosed(ts[1..], c, after);
    GroupAtom(ts, c, after);
  }

  /** An atom followed by its trailers, outside `not`. */
  lemma PowerStep(ts: seq<string>, atom: Pred, after: seq<string>)
    requires ts != [] && ts[0] != "not" && ParseAtom(ts) == Some((atom, after))
    ensures ParseNot(ts) == Trailers(atom, after)
  {
  }

  /** `( )` after a callee. */
  lemma CallTrailer(c: Pred, rest: seq<string>)
    requires EndsTrailers(rest)
    ensures Trailers(c, ["(", ")"] + rest) == Some((Call(c), rest))
  {
    assert (["(", ")"] + rest)[2..] == rest;
    TrailersStop(Call(c), rest);
  }

  /** `( argument )` after a callee. */
  lemma CallWithTrailer(c: Pred, a: Pred, rest: seq<string>)
    requires EndsTrailers(rest)
    requires ParseNot(Print(a) + ([")"] + rest)) == Some((a, [")"] + rest))
    ensures Trailers(c, ["("] + Print(a) + [")"] + rest) == Some((CallWith(c, a), rest))
  {
    var after := ["("] + Print(a) + [")"] + rest;
    assert after[1..] == Print(a) + ([")"] + rest) && after[1] == Print(a)[0];
    ParseOrClosed(after[1..], a, rest);
    ArgumentStep(c, after, a, rest);
    TrailersStop(CallWith(c, a), rest);
  }

  /** One trailer with an argument. */
  lemma ArgumentStep(c: Pred, ts: seq<string>, a: Pred, rest: seq<string>)
    requires |ts| > 1 && ts[0] == "(" && ts[1] != ")"
    requires ParseOr(ts[1..]) == Some((a, [")"] + rest))
    ensures Trailers(c, ts) == Trailers(CallWith(c, a), rest)
  {
    assert ([")"] + rest)[1..] == rest;
  }

  /** How the tokens of a printed call with an argument split up. */
  lemma CallWithTokens(c: seq<string>, a: seq<string>, rest: seq<string>)
    ensures (["("] + c + [")", "("] + a + [")"] + rest)[1..] == c + ([")"] + (["("] + a + [")"] + rest))
    ensures (["("] + c + [")", "("] + a + [")"] + rest)[0] == "("
  {
  }

  /** The step of `ParseNotPrint` for `( callee ) ( argument )`. */
  lemma ParseCallWithPrint(c: Pred, a: Pred, rest: seq<string>)
    requires EndsTrailers(rest)
    requires ParseNot(Print(c) + ([")"] + (["("] + Print(a) + [")"] + rest)))
      == Some((c, [")"] + (["("] + Print(a) + [")"] + rest)))
    requires ParseNot(Print(a) + ([")"] + rest)) == Some((a, [")"] + rest))
    ensures ParseNot(Print(CallWith(c, a)) + rest) == Some((CallWith(c, a), rest))
  {
    var after := ["("] + Print(a) + [")"] + rest;
    assert Print(CallWith(c, a)) == ["("] + Print(c) + [")", "("] + Print(a) + [")"];
    var ts := Print(CallWith(c, a)) + rest;
    CallWithTokens(Print(c), Print(a), rest);
    CalleeGroup(ts, c, after);
    CallWithTrailer(c, a, rest);
    PowerStep(ts, c, after);
  }

  /** Parsing recovers every condition from its printed tokens. */
  lemma ParsePrint(p: Pred)
    ensures Parse(Print(p)) == Some(p)
  {
    ParseNotPrint(p, []);
    assert Print(p) + [] == Print(p);
    assert ParseAnd(Print(p)) == Some((p, []));
    assert ParseOr(Print(p)) == Some((p, []));
  }

  /** The condition contains `( )` as an empty tuple. */
  predicate HasEmptyTuple(p: Pred) {
    match p
    case Ref(_) => false
    case EmptyTuple => true
    case Not(q) => HasEmptyTuple(q)
    case And(l, r) => HasEmptyTuple(l) || HasEmptyTuple(r)
    case Or(l, r) => HasEmptyTuple(l) || HasEmptyTuple(r)
    case Call(c) => HasEmptyTuple(c)
    case CallWith(c, a) => HasEmptyTuple(c) || HasEmptyTuple(a)
  }

  /**
   * The condition as `eval` runs it: the substituted text calls
   * `check(name, member)`, but the loop variable is `i`, so evaluating any
   * role reference raises NameError (`None`). `and`/`or` short-circuit, so a
   * reference after a false `( )` is never reached. Only an empty tuple can
   * give a value.
   */
  function EvalAsWritten(p: Pred): (v: Option<bool>)
    ensures v.Some? ==> HasEmptyTuple(p)
  {
    match p
    case Ref(_) => None
    case EmptyTuple => Some(false)
    case Not(q) =>
      (match EvalAsWritten(q)
       case None => None
       case Some(b) => Some(!b))
    case And(l, r) =>
      (match EvalAsWritten(l)
       case None => None
       case Some(b) => if !b then Some(false) else EvalAsWritten(r))
    case Or(l, r) =>
      (match EvalAsWritten(l)
       case None => None
       case Some(b) => if b then Some(true) else EvalAsWritten(r))
    case Call(_) => None
    case CallWith(_, _) => None
  }

  /** Holds when the condition is built from role references with `not`, `and` and `or` only. */
  predicate OnlyRoles(p: Pred) {
    match p
    case Ref(_) => true
    case EmptyTuple => false
    case Not(q) => OnlyRoles(q)
    case And(l, r) => OnlyRoles(l) && OnlyRoles(r)
    case Or(l, r) => OnlyRoles(l) && OnlyRoles(r)
    case Call(_) => false
    case CallWith(_, _) => false
  }

  /** As written, every condition built only from role references raises. */
  lemma {:induction false} AsWrittenFailsOnRoles(p: Pred)
    requires OnlyRoles(p)
    ensures EvalAsWritten(p) == None
  {
    match p
    case Ref(_) =>
    case Not(q) => AsWrittenFailsOnRoles(q);
    case And(l, _) => AsWrittenFailsOnRoles(l);
    case Or(l, _) => AsWrittenFailsOnRoles(l);
  }

  /** Where the as-written evaluation does not raise, it agrees with `Eval` for every member. */
  lemma {:induction false} AsWrittenAgreesWhenDefined(p: Pred, roles: seq<GuildRole>, memberRoles: set<nat>)
    requires EvalAsWritten(p).Some?
    ensures EvalAsWritten(p) == Eval(p, roles, memberRoles)
  {
    match p
    case EmptyTuple =>
    case Not(q) => AsWrittenAgreesWhenDefined(q, roles, memberRoles);
    case And(l, r) =>
      AsWrittenAgreesWhenDefined(l, roles, memberRoles);
      if EvalAsWritten(l) == Some(true) {
        AsWrittenAgreesWhenDefined(r, roles, memberRoles);
      }
    case Or(l, r) =>
      AsWrittenAgreesWhenDefined(l, roles, memberRoles);
      if EvalAsWritten(l) == Some(false) {
        AsWrittenAgreesWhenDefined(r, roles, memberRoles);
      }
  }

  /** The call each role reference becomes in the text handed to `eval`. */
  function CheckCall(name: string): string {
    "check('" + name + "',member)"
  }

  /**
   * The text `eval` receives: for each dictionary key in order, every
   * `@key` is replaced by its `CheckCall`.
   */
  function Substitute(text: string, keys: seq<string>): (r: string)
    ensures '@' !in text ==> r == text
    decreases |keys|
  {
    if keys == [] then text
    else
      var pattern := "@" + keys[0];
      var once := Replace(text, pattern, CheckCall(keys[0]));
      assert '@' !in text ==> once == text by {
        if '@' !in text {
          ReplaceSkips(text, "", pattern, CheckCall(keys[0]));
          assert text + "" == text;
        }
      }
      Substitute(once, keys[1..])
  }

  /**
   * As written, a role name that is a prefix of a later one is substituted
   * into the later reference too: `@a and @ax` becomes text whose second
   * operand is `check('a',member)x`, which is not the call for `ax`.
   */
  lemma PrefixCollision(a: string, x: string)
    requires x != [] && '@' !in a && '@' !in x
    ensures DictKeys(["@" + a, "and", "@" + a + x]) == [a, a + x]
    ensures Substitute(("@" + a) + (" and " + (("@" + a) + x)), [a, a + x]) == CheckCall(a) + (" and " + (CheckCall(a) + x))
  {
    var ts := ["@" + a, "and", "@" + a + x];
    assert ts[..1] == ["@" + a] && ts[..2] == ["@" + a, "and"] && ts[..1][..0] == [];
    assert ("@" + a)[1..] == a && ("@" + a + x)[1..] == a + x;
    assert a != a + x by { assert |a + x| > |a|; }
    assert DictKeys(ts[..1]) == [a];
    assert DictKeys(ts[..2]) == [a];

    var text := ("@" + a) + (" and " + (("@" + a) + x));
    var once := CheckCall(a) + (" and " + (CheckCall(a) + x));
    FirstPass(a, x);
    SecondPass(a, x, once);
    assert "@" + (a + x) == "@" + a + x;
    assert [a, a + x][1..] == [a + x] && [a + x][1..] == [];
    assert Substitute(text, [a, a + x]) == Substitute(once, [a + x]);
    assert Substitute(once, [a + x]) == Substitute(once, []);
  }

  /** The first pass rewrites both `@a`, the second one inside `@ax`. */
  lemma FirstPass(a: string, x: string)
    requires '@' !in x
    ensures Replace(("@" + a) + (" and " + (("@" + a) + x)), "@" + a, CheckCall(a)) == CheckCall(a) + (" and " + (CheckCall(a) + x))
  {
    PassAnd(a, x);
    ReplaceHead(" and " + (("@" + a) + x), "@" + a, CheckCall(a));
  }

  lemma PassAnd(a: string, x: string)
    requires '@' !in x
    ensures Replace(" and " + (("@" + a) + x), "@" + a, CheckCall(a)) == " and " + (CheckCall(a) + x)
  {
    PassRef(a, x);
    assert '@' !in " and ";
    ReplaceSkips(" and ", ("@" + a) + x, "@" + a, CheckCall(a));
  }

  lemma PassRef(a: string, x: string)
    requires '@' !in x
    ensures Replace(("@" + a) + x, "@" + a, CheckCall(a)) == CheckCall(a) + x
  {
    ReplaceSkips(x, "", "@" + a, CheckCall(a));
    assert x + "" == x;
    ReplaceHead(x, "@" + a, CheckCall(a));
  }

  lemma SecondPass(a: string, x: string, once: string)
    requires '@' !in a && '@' !in x && once == CheckCall(a) + (" and " + (CheckCall(a) + x))
    ensures Replace(once, "@" + a + x, CheckCall(a + x)) == once
  {
    assert '@' !in CheckCall(a) by {
      assert CheckCall(a) == "check('" + a + "',member)";
      assert '@' !in "check('" && '@' !in "',member)";
    }
    assert '@' !in once;
    ReplaceSkips(once, "", "@" + a + x, CheckCall(a + x));
    assert once + "" == once;
  }

  /** Parsing the same query token by token reads each reference with its own name. */
  lemma NoPrefixCollision(a: string, x: string)
    ensures Parse(["@" + a, "and", "@" + a + x]) == Some(And(Ref(a), Ref(a + x)))
  {
    var ts := ["@" + a, "and", "@" + a + x];
    assert ("@" + a)[1..] == a && ("@" + a + x)[1..] == a + x;
    assert ts[0][0] == '@' && ts[2][0] == '@';
    assert ts[1..] == ["and", "@" + a + x] && ts[1..][1..] == ["@" + a + x] && ts[1..][1..][1..] == [];
    assert ts == ["@" + a] + ts[1..] && ts[1..][1..] == ["@" + a + x] + [];
    RefNot("@" + a, ts[1..]);
    RefNot("@" + a + x, []);
    ParseLevels(ts, Ref(a), ts[1..]);
    AndStep(Ref(a), ts[1..], Ref(a + x), []);
    TailStops(And(Ref(a), Ref(a + x)), []);
  }

  /** `@a and @ab` tokenises into the three tokens parsed above. */
  lemma CollisionTokens()
    ensures Tokens("@a and @ab") == ["@a", "and", "@ab"]
  {
    var ts := ["@a", "and", "@ab"];
    assert Join(ts[2..]) == "@ab";
    assert Join(ts[1..]) == "and" + " " + "@ab";
    assert Join(ts) == "@a and @ab";
    assert IsWord(ts[0]) && IsWord(ts[1]) && IsWord(ts[2]);
    TokensOfJoin(ts, "@a and @ab");
  }

  /** Text made of words joined by single spaces, without backticks at either end, tokenises back. */
  lemma TokensOfJoin(ts: seq<string>, text: string)
    requires forall k :: 0 <= k < |ts| ==> IsWord(ts[k])
    requires text == Join(ts)
    requires text != [] ==> text[0] != '`' && text[|text| - 1] != '`'
    ensures Tokens(text) == ts
  {
    SplitJoin(ts);
    assert LStrip(text, '`') == text;
  }
}
