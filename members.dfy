/**
 * The `members` command: validate the role query, evaluate it for every
 * member of the guild in guild order, and post the mentions of the members
 * it holds for in chunks that are flushed whenever they pass 1950
 * characters. Whether a flushed chunk is posted, and how, depends on the
 * subcommand and on who invoked it.
 */
module Members {
  import opened Wrappers
  import opened Text
  import opened RoleQuery
  import Run

  /** A chunk is flushed once it is longer than this. */
  const ChunkThreshold := 1950
  /** The one user who may always use the pinging subcommand. */
  const OwnerId := 678401615333556277
  /** Sent as plain text when the query holds a token that is neither an operator nor a role. */
  const UnrecognizedReply := "Unrecognized input"

  /** A member of the guild: how to mention them and the ids of their roles. */
  datatype GuildMember = GuildMember(mention: string, roleIds: set<nat>)

  /** Who sent the command. */
  datatype Invoker = Invoker(viaWebhook: bool, isAdministrator: bool, authorId: nat)

  /** A posted chunk: inside an embed (no ping) or as plain text (pings). */
  datatype Reply = EmbedReply(description: string) | TextReply(content: string)

  /** Sent by a webhook, by an administrator, or by the owner. */
  predicate Privileged(inv: Invoker) {
    inv.viaWebhook || inv.isAdministrator || inv.authorId == OwnerId
  }

  /** What one flush posts: an embed for "student", text for a privileged "teacher", else nothing. */
  function Deliver(sub: string, inv: Invoker, chunk: string): (r: Option<Reply>)
    ensures r == Some(EmbedReply(chunk)) <==> sub == "student"
    ensures r == Some(TextReply(chunk)) <==> sub == "teacher" && Privileged(inv)
    ensures r.None? <==> sub != "student" && !(sub == "teacher" && Privileged(inv))
  {
    if sub == "student" then Some(EmbedReply(chunk))
    else if sub == "teacher" && Privileged(inv) then Some(TextReply(chunk))
    else None
  }

  /** The replies posted for a sequence of flushes, in order. */
  function DeliverAll(sub: string, inv: Invoker, chunks: seq<string>): seq<Reply> {
    if chunks == [] then []
    else
      var sent := DeliverAll(sub, inv, chunks[..|chunks| - 1]);
      match Deliver(sub, inv, chunks[|chunks| - 1])
      case None => sent
      case Some(reply) => sent + [reply]
  }

  /** One more flush adds its reply, if any, at the end. */
  lemma DeliverAllAppend(sub: string, inv: Invoker, chunks: seq<string>, chunk: string)
    ensures DeliverAll(sub, inv, chunks + [chunk]) ==
      DeliverAll(sub, inv, chunks) + (if Deliver(sub, inv, chunk).Some? then [Deliver(sub, inv, chunk).value] else [])
  {
    assert (chunks + [chunk])[..|chunks|] == chunks;
  }

  /** "student" posts every flush, each as an embed holding exactly that chunk. */
  lemma {:induction false} StudentPostsEveryChunk(inv: Invoker, chunks: seq<string>)
    ensures |DeliverAll("student", inv, chunks)| == |chunks|
    ensures forall k :: 0 <= k < |chunks| ==> DeliverAll("student", inv, chunks)[k] == EmbedReply(chunks[k])
  {
    if chunks != [] {
      StudentPostsEveryChunk(inv, chunks[..|chunks| - 1]);
    }
  }

  /** A privileged "teacher" posts every flush as text, which pings the members mentioned. */
  lemma {:induction false} TeacherPostsEveryChunk(inv: Invoker, chunks: seq<string>)
    requires Privileged(inv)
    ensures |DeliverAll("teacher", inv, chunks)| == |chunks|
    ensures forall k :: 0 <= k < |chunks| ==> DeliverAll("teacher", inv, chunks)[k] == TextReply(chunks[k])
  {
    if chunks != [] {
      TeacherPostsEveryChunk(inv, chunks[..|chunks| - 1]);
    }
  }

  /** Any other subcommand, or an unprivileged "teacher", posts nothing at all. */
  lemma {:induction false} OthersPostNothing(sub: string, inv: Invoker, chunks: seq<string>)
    requires sub != "student" && !(sub == "teacher" && Privileged(inv))
    ensures DeliverAll(sub, inv, chunks) == []
  {
    if chunks != [] {
      OthersPostNothing(sub, inv, chunks[..|chunks| - 1]);
    }
  }

  /** What one matching member adds to the output. */
  function Piece(m: GuildMember): string {
    " " + m.mention
  }

  /** The query holds for the member (its evaluation neither raises nor is false). */
  predicate Matches(p: Pred, roles: seq<GuildRole>, m: GuildMember) {
    Eval(p, roles, m.roleIds) == Some(true)
  }

  /** The first member for whom evaluating the query raises, or `|ms|` if none does. */
  function FirstFailure(p: Pred, roles: seq<GuildRole>, ms: seq<GuildMember>): (f: nat)
    ensures f <= |ms|
    ensures forall j :: 0 <= j < f ==> Eval(p, roles, ms[j].roleIds).Some?
    ensures f < |ms| ==> Eval(p, roles, ms[f].roleIds).None?
  {
    if ms == [] then 0
    else if Eval(p, roles, ms[0].roleIds).None? then 0
    else 1 + FirstFailure(p, roles, ms[1..])
  }

  /** A query without call trailers never raises. */
  lemma {:induction false} NoCallNeverRaises(p: Pred, roles: seq<GuildRole>, ms: seq<GuildMember>)
    requires !HasCall(p)
    ensures FirstFailure(p, roles, ms) == |ms|
  {
    if ms != [] {
      NoCallNeverRaises(p, roles, ms[1..]);
    }
  }

  /** The pieces of the members the query holds for, in guild order. */
  function MatchingPieces(p: Pred, roles: seq<GuildRole>, ms: seq<GuildMember>): seq<string> {
    if ms == [] then []
    else
      var m := ms[|ms| - 1];
      MatchingPieces(p, roles, ms[..|ms| - 1]) + (if Matches(p, roles, m) then [Piece(m)] else [])
  }

  /** The chunks flushed inside the loop, and the text still held in `out`. */
  datatype Accumulator = Accumulator(flushed: seq<string>, out: string)

  /** The state after the loop has visited the members `ms`. */
  function Accumulate(p: Pred, roles: seq<GuildRole>, ms: seq<GuildMember>): Accumulator {
    if ms == [] then Accumulator([], "")
    else
      var acc := Accumulate(p, roles, ms[..|ms| - 1]);
      var m := ms[|ms| - 1];
      var out := if Matches(p, roles, m) then acc.out + Piece(m) else acc.out;
      if |out| > ChunkThreshold then Accumulator(acc.flushed + [out], "")
      else Accumulator(acc.flushed, out)
  }

  /** Every chunk the command flushes: the ones flushed in the loop, then a non-empty remainder. */
  function Flushes(p: Pred, roles: seq<GuildRole>, ms: seq<GuildMember>): seq<string> {
    var acc := Accumulate(p, roles, ms);
    acc.flushed + (if acc.out == "" then [] else [acc.out])
  }

  /** The loop's chunks and `out`, read in order, are the matching pieces, in guild order. */
  lemma {:induction false} AccumulateCovers(p: Pred, roles: seq<GuildRole>, ms: seq<GuildMember>)
    ensures var acc := Accumulate(p, roles, ms);
      Concat(acc.flushed) + acc.out == Concat(MatchingPieces(p, roles, ms))
  {
    if ms != [] {
      var init := ms[..|ms| - 1];
      var m := ms[|ms| - 1];
      var acc := Accumulate(p, roles, init);
      AccumulateCovers(p, roles, init);
      var before := Concat(MatchingPieces(p, roles, init));
      var added := if Matches(p, roles, m) then [Piece(m)] else [];
      assert MatchingPieces(p, roles, ms) == MatchingPieces(p, roles, init) + added;
      ConcatAppend(MatchingPieces(p, roles, init), added);
      var out := if Matches(p, roles, m) then acc.out + Piece(m) else acc.out;
      if Matches(p, roles, m) {
        assert Concat(added) == Piece(m) + Concat([]);
        Associative(Concat(acc.flushed), acc.out, Piece(m));
      } else {
        assert Concat(added) == "" && before + "" == before;
      }
      assert Concat(acc.flushed) + out == Concat(MatchingPieces(p, roles, ms));
      if |out| > ChunkThreshold {
        FlushKeepsText(acc.flushed, out);
      }
    }
  }

  lemma Associative(a: string, b: string, c: string)
    ensures a + (b + c) == (a + b) + c
  {
  }

  lemma FlushKeepsText(flushed: seq<string>, out: string)
    ensures Concat(flushed + [out]) + "" == Concat(flushed) + out
  {
    ConcatAppend(flushed, [out]);
    assert Concat([out]) == out;
  }

  /**
   * `out` never holds more than 1950 characters between members, and every
   * chunk flushed in the loop is longer than 1950 characters but was at most
   * 1950 before the piece of the member that pushed it over.
   */
  lemma {:induction false} AccumulateBounds(p: Pred, roles: seq<GuildRole>, ms: seq<GuildMember>)
    ensures |Accumulate(p, roles, ms).out| <= ChunkThreshold
    ensures forall k :: 0 <= k < |Accumulate(p, roles, ms).flushed| ==>
      var chunk := Accumulate(p, roles, ms).flushed[k];
      |chunk| > ChunkThreshold &&
      exists j :: 0 <= j < |ms| && Matches(p, roles, ms[j]) &&
        EndsWith(chunk, Piece(ms[j])) && |chunk| - |Piece(ms[j])| <= ChunkThreshold
  {
    if ms != [] {
      var n := |ms| - 1;
      var init := ms[..n];
      var acc := Accumulate(p, roles, init);
      AccumulateBounds(p, roles, init);
      var flushed := Accumulate(p, roles, ms).flushed;
      forall k | 0 <= k < |flushed|
        ensures |flushed[k]| > ChunkThreshold
        ensures exists j :: (0 <= j < |ms| && Matches(p, roles, ms[j]) &&
          EndsWith(flushed[k], Piece(ms[j])) && |flushed[k]| - |Piece(ms[j])| <= ChunkThreshold)
      {
        if k < |acc.flushed| {
          assert flushed[k] == acc.flushed[k];
          var j :| 0 <= j < n && Matches(p, roles, init[j]) &&
            EndsWith(acc.flushed[k], Piece(init[j])) && |acc.flushed[k]| - |Piece(init[j])| <= ChunkThreshold;
          assert init[j] == ms[j];
        } else {
          var chunk := acc.out + Piece(ms[n]);
          assert Matches(p, roles, ms[n]);
          assert flushed[k] == chunk;
          assert chunk[|chunk| - |Piece(ms[n])|..] == Piece(ms[n]);
        }
      }
    }
  }

  /** Read in order, the flushed chunks are exactly the matching pieces, and none is empty. */
  lemma FlushesCover(p: Pred, roles: seq<GuildRole>, ms: seq<GuildMember>)
    ensures Concat(Flushes(p, roles, ms)) == Concat(MatchingPieces(p, roles, ms))
    ensures forall k :: 0 <= k < |Flushes(p, roles, ms)| ==> Flushes(p, roles, ms)[k] != ""
  {
    var acc := Accumulate(p, roles, ms);
    AccumulateCovers(p, roles, ms);
    AccumulateBounds(p, roles, ms);
    var rest := if acc.out == "" then [] else [acc.out];
    ConcatAppend(acc.flushed, rest);
    assert Concat(rest) == acc.out;
  }

  /** When no member matches, nothing is flushed and so nothing is posted. */
  lemma NoMatchNoFlush(p: Pred, roles: seq<GuildRole>, ms: seq<GuildMember>)
    requires forall j :: 0 <= j < |ms| ==> !Matches(p, roles, ms[j])
    ensures Flushes(p, roles, ms) == []
  {
    AccumulateBounds(p, roles, ms);
    FlushesCover(p, roles, ms);
    MatchingPiecesEmpty(p, roles, ms);
  }

  lemma {:induction false} MatchingPiecesEmpty(p: Pred, roles: seq<GuildRole>, ms: seq<GuildMember>)
    requires forall j :: 0 <= j < |ms| ==> !Matches(p, roles, ms[j])
    ensures MatchingPieces(p, roles, ms) == []
  {
    if ms != [] {
      MatchingPiecesEmpty(p, roles, ms[..|ms| - 1]);
    }
  }

  /**
   * With mentions of at most 49 characters (a Discord mention is far
   * shorter), every flushed chunk fits in one Discord message.
   */
  lemma ChunksFitMessage(p: Pred, roles: seq<GuildRole>, ms: seq<GuildMember>)
    requires forall j :: 0 <= j < |ms| ==> |ms[j].mention| <= 49
    ensures forall k :: 0 <= k < |Flushes(p, roles, ms)| ==> |Flushes(p, roles, ms)[k]| <= Run.MessageLimit
  {
    AccumulateBounds(p, roles, ms);
    var acc := Accumulate(p, roles, ms);
    forall k | 0 <= k < |acc.flushed| ensures |acc.flushed[k]| <= Run.MessageLimit {
      var j :| 0 <= j < |ms| && Matches(p, roles, ms[j]) &&
        EndsWith(acc.flushed[k], Piece(ms[j])) && |acc.flushed[k]| - |Piece(ms[j])| <= ChunkThreshold;
    }
  }

  /** Whether the loop stops at a member it reaches. */
  lemma FirstFailureAt(p: Pred, roles: seq<GuildRole>, ms: seq<GuildMember>, i: nat)
    requires i < |ms| && i <= FirstFailure(p, roles, ms)
    ensures Eval(p, roles, ms[i].roleIds).None? <==> FirstFailure(p, roles, ms) == i
  {
  }

  /** One more member visited by the loop. */
  lemma AccumulateStep(p: Pred, roles: seq<GuildRole>, ms: seq<GuildMember>, i: nat)
    requires i < |ms|
    ensures var acc := Accumulate(p, roles, ms[..i]);
      var out := if Matches(p, roles, ms[i]) then acc.out + Piece(ms[i]) else acc.out;
      Accumulate(p, roles, ms[..i + 1]) ==
        if |out| > ChunkThreshold then Accumulator(acc.flushed + [out], "") else Accumulator(acc.flushed, out)
  {
    assert ms[..i + 1][..i] == ms[..i] && ms[..i + 1][i] == ms[i];
  }

  /**
   * The evaluation loop: for each member in guild order, append its piece
   * when the query holds, and flush `out` once it passes the threshold,
   * posting it or not; finally flush what is left. When the evaluation
   * raises, the loop stops there: what was flushed before stays posted and
   * `out` is dropped.
   */
  method CollectMentions(sub: string, inv: Invoker, p: Pred, roles: seq<GuildRole>, ms: seq<GuildMember>)
    returns (sent: seq<Reply>, raised: bool)
    ensures raised <==> FirstFailure(p, roles, ms) < |ms|
    ensures raised ==> sent == DeliverAll(sub, inv, Accumulate(p, roles, ms[..FirstFailure(p, roles, ms)]).flushed)
    ensures !raised ==> sent == DeliverAll(sub, inv, Flushes(p, roles, ms))
  {
    var flushed: seq<string> := [];
    var out := "";
    sent := [];
    var i := 0;
    while i < |ms|
      invariant 0 <= i <= |ms|
      invariant i <= FirstFailure(p, roles, ms)
      invariant Accumulate(p, roles, ms[..i]) == Accumulator(flushed, out)
      invariant sent == DeliverAll(sub, inv, flushed)
    {
      AccumulateStep(p, roles, ms, i);
      FirstFailureAt(p, roles, ms, i);
      var holds := Eval(p, roles, ms[i].roleIds);
      if holds.None? {
        return sent, true;
      }
      if holds == Some(true) {
        out := out + (" " + ms[i].mention);
      }
      if |out| > ChunkThreshold {
        DeliverAllAppend(sub, inv, flushed, out);
        var reply := Deliver(sub, inv, out);
        if reply.Some? {
          sent := sent + [reply.value];
        }
        flushed := flushed + [out];
        out := "";
      }
      i := i + 1;
    }
    assert ms[..i] == ms;
    assert Flushes(p, roles, ms) == flushed + (if out == "" then [] else [out]);
    raised := false;
    if |out| != 0 {
      DeliverAllAppend(sub, inv, flushed, out);
      var reply := Deliver(sub, inv, out);
      if reply.Some? {
        sent := sent + [reply.value];
      }
    } else {
      assert flushed + [] == flushed;
    }
  }

  /** How the command ends. */
  datatype Outcome =
    | /** A token was neither an operator nor a role reference: only this reply is posted. */
      Unrecognized(notice: Reply)
    | /** `eval` raised for some member; these replies were posted before it did. */
      Raised(replies: seq<Reply>)
    | /** The query was evaluated for every member; these replies were posted. */
      Delivered(replies: seq<Reply>)

  /**
   * The whole command, with `eval` read as the predicate the query denotes.
   * A query that is not an expression raises at the first member.
   */
  method MembersCommand(sub: string, query: string, inv: Invoker, roles: seq<GuildRole>, ms: seq<GuildMember>)
    returns (outcome: Outcome)
    ensures var ts := Tokens(query);
      outcome.Unrecognized? <==> exists k :: 0 <= k < |ts| && !IsValidToken(ts[k])
    ensures outcome.Unrecognized? ==> outcome.notice == TextReply(UnrecognizedReply)
    ensures var ts := Tokens(query);
      outcome.Raised? <==>
        (forall k :: 0 <= k < |ts| ==> IsValidToken(ts[k])) &&
        (Parse(ts).None? ==> ms != []) &&
        (Parse(ts).Some? ==> FirstFailure(Parse(ts).value, roles, ms) < |ms|)
    ensures var ts := Tokens(query);
      outcome.Raised? && Parse(ts).None? ==> outcome.replies == []
    ensures var ts := Tokens(query);
      outcome.Raised? && Parse(ts).Some? ==>
        var p := Parse(ts).value;
        outcome.replies == DeliverAll(sub, inv, Accumulate(p, roles, ms[..FirstFailure(p, roles, ms)]).flushed)
    ensures var ts := Tokens(query);
      outcome.Delivered? && Parse(ts).Some? ==>
        outcome.replies == DeliverAll(sub, inv, Flushes(Parse(ts).value, roles, ms))
    ensures var ts := Tokens(query);
      outcome.Delivered? && Parse(ts).None? ==> outcome.replies == [] && ms == []
  {
    var tokens := Tokens(query);
    var keys := Validate(tokens);
    if keys.None? {
      return Unrecognized(TextReply(UnrecognizedReply));
    }
    match Parse(tokens)
    case None =>
      if ms == [] {
        outcome := Delivered([]);
      } else {
        outcome := Raised([]);
      }
    case Some(p) =>
      var sent, raised := CollectMentions(sub, inv, p, roles, ms);
      outcome := if raised then Raised(sent) else Delivered(sent);
  }
}
