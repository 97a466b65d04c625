/**
 * Discussion channels. Reacting with an arrow to a message opens (or joins)
 * a private channel `discussion-<message id>` about it; reacting with a
 * cross to the bot's closing message deletes the channel; removing a
 * reaction, `add_user` and mentions inside the channel revoke or grant
 * access. The guild is abstracted to its channels (by name), its categories
 * and the blacklist.
 */
module Discussion {
  import opened Wrappers
  import opened Text

  const CloseEmoji := "\U{274C}"
  const OpenEmoji := "\U{27A1}\U{FE0F}"
  const DiscussionPrefix := "discussion-"
  const ThreadsCategory := "threads"
  /** The description of the embed the bot posts in every channel it creates. */
  const CloseSentinel := "React with :x: to close the channel"
  const BlacklistNotice := "You were blacklisted for being bad >:("

  /** Whom a permission overwrite is for: the guild's default role, or one member. */
  datatype Target = Everyone | Member(id: nat)

  /** A permission overwrite: each permission allowed, denied or left unset. */
  datatype Overwrite = Overwrite(read: Option<bool>, send: Option<bool>)

  const Hidden := Overwrite(Some(false), None)
  const Reader := Overwrite(Some(true), None)
  const Writer := Overwrite(None, Some(true))
  const ReadWrite := Overwrite(Some(true), Some(true))
  const Revoked := Overwrite(Some(false), Some(false))

  /** A channel: the index of its category, if any, and its overwrites. */
  datatype Channel = Channel(category: Option<nat>, overwrites: map<Target, Overwrite>)

  /** The message reacted to: its id, its author, and the description of each embed. */
  datatype Message = Message(id: nat, authorId: nat, embeds: seq<Option<string>>)

  /** The channel that discusses the message with this id. */
  function DiscussionName(messageId: nat): (name: string)
    ensures StartsWith(name, DiscussionPrefix)
  {
    var name := DiscussionPrefix + NatToString(messageId);
    assert name[..|DiscussionPrefix|] == DiscussionPrefix;
    name
  }

  predicate IsDiscussion(name: string) {
    StartsWith(name, DiscussionPrefix)
  }

  /** A Python dict display: entries are inserted in order, so a repeated key keeps its last value. */
  function DictLiteral(entries: seq<(Target, Overwrite)>): map<Target, Overwrite> {
    if entries == [] then map[]
    else
      var last := entries[|entries| - 1];
      DictLiteral(entries[..|entries| - 1])[last.0 := last.1]
  }

  /** The keys are exactly the entries' keys. */
  lemma {:induction false} DictLiteralKeys(entries: seq<(Target, Overwrite)>)
    ensures forall t :: t in DictLiteral(entries) <==> exists k :: 0 <= k < |entries| && entries[k].0 == t
  {
    if entries != [] {
      var n := |entries| - 1;
      var init := entries[..n];
      DictLiteralKeys(init);
      forall t ensures t in DictLiteral(entries) <==> exists k :: 0 <= k < |entries| && entries[k].0 == t {
        if t in DictLiteral(init) {
          var k :| 0 <= k < n && init[k].0 == t;
          assert entries[k] == init[k];
        }
        if exists k :: 0 <= k < |entries| && entries[k].0 == t {
          var k :| 0 <= k < |entries| && entries[k].0 == t;
          if k < n {
            assert init[k] == entries[k];
          }
        }
      }
    }
  }

  /** A key maps to the value of its last entry: later duplicates replace earlier ones. */
  lemma {:induction false} DictLiteralLastWins(entries: seq<(Target, Overwrite)>, k: nat)
    requires k < |entries|
    requires forall k' :: k < k' < |entries| ==> entries[k'].0 != entries[k].0
    ensures entries[k].0 in DictLiteral(entries)
    ensures DictLiteral(entries)[entries[k].0] == entries[k].1
  {
    var n := |entries| - 1;
    if k < n {
      var init := entries[..n];
      assert init[k] == entries[k];
      assert forall k' :: k < k' < n ==> init[k'] == entries[k'];
      DictLiteralLastWins(init, k);
    }
  }

  /**
   * The overwrites display written for a new channel: the default role
   * hidden, the bot a reader, then the reactor and the author each listed
   * twice, first with send and then with read.
   */
  function CreationEntries(botId: nat, reactorId: nat, authorId: nat): seq<(Target, Overwrite)> {
    [(Everyone, Hidden), (Member(botId), Reader),
     (Member(reactorId), Writer), (Member(reactorId), Reader),
     (Member(authorId), Writer), (Member(authorId), Reader)]
  }

  /**
   * Because the later duplicate keys win, the new channel grants only read
   * to the bot, the reactor and the author, and hides it from everyone else;
   * this holds also when any of the three coincide.
   */
  lemma CreationOverwrites(botId: nat, reactorId: nat, authorId: nat)
    ensures DictLiteral(CreationEntries(botId, reactorId, authorId)) ==
      map[Everyone := Hidden, Member(botId) := Reader, Member(reactorId) := Reader, Member(authorId) := Reader]
  {
    var e := CreationEntries(botId, reactorId, authorId);
    assert e[..6][..5] == e[..5] && e[..5][..4] == e[..4] && e[..4][..3] == e[..3];
    assert e[..3][..2] == e[..2] && e[..2][..1] == e[..1] && e[..1][..0] == [];
    assert e[..6] == e;
    assert DictLiteral(e[..1]) == map[Everyone := Hidden];
    var m := map[Everyone := Hidden, Member(botId) := Reader];
    assert DictLiteral(e[..2]) == DictLiteral(e[..1])[Member(botId) := Reader] == m;
    assert DictLiteral(e[..4]) == m[Member(reactorId) := Writer][Member(reactorId) := Reader];
    assert DictLiteral(e[..4]) == m[Member(reactorId) := Reader];
    var m4 := m[Member(reactorId) := Reader];
    assert DictLiteral(e) == m4[Member(authorId) := Writer][Member(authorId) := Reader];
  }

  /**
   * `guild.by_category()` reduced to what the category loop looks at: one
   * entry per group, `None` for the uncategorised channels, else the index
   * of the category.
   */
  type Groups = seq<Option<nat>>

  predicate NamesThreads(group: Option<nat>, categories: seq<string>) {
    group.Some? && group.value < |categories| && categories[group.value] == ThreadsCategory
  }

  /** The category the loop ends with: the last one named "threads". */
  function LastThreads(groups: Groups, categories: seq<string>): Option<nat> {
    if groups == [] then None
    else if NamesThreads(groups[|groups| - 1], categories) then groups[|groups| - 1]
    else LastThreads(groups[..|groups| - 1], categories)
  }

  /** `LastThreads` finds a "threads" category exactly when there is one, and no later group names one. */
  lemma {:induction false} LastThreadsIsLast(groups: Groups, categories: seq<string>)
    ensures LastThreads(groups, categories).None? <==> forall k :: 0 <= k < |groups| ==> !NamesThreads(groups[k], categories)
    ensures LastThreads(groups, categories).Some? ==>
      exists k :: 0 <= k < |groups| && groups[k] == LastThreads(groups, categories) && NamesThreads(groups[k], categories) &&
        forall k' :: k < k' < |groups| ==> !NamesThreads(groups[k'], categories)
  {
    if groups != [] {
      var n := |groups| - 1;
      var init := groups[..n];
      LastThreadsIsLast(init, categories);
      assert forall k :: 0 <= k < n ==> init[k] == groups[k];
    }
  }

  /** The category loop. */
  method FindThreadsCategory(groups: Groups, categories: seq<string>) returns (category: Option<nat>)
    ensures category == LastThreads(groups, categories)
  {
    category := None;
    var i := 0;
    while i < |groups|
      invariant 0 <= i <= |groups|
      invariant category == LastThreads(groups[..i], categories)
    {
      assert groups[..i + 1][..i] == groups[..i];
      match groups[i] {
        case None =>
        case Some(c) =>
          if c < |categories| && categories[c] == ThreadsCategory {
            category := Some(c);
          }
      }
      i := i + 1;
    }
    assert groups[..i] == groups;
  }

  /** How a reaction-add event ends. */
  datatype AddOutcome =
    | /** The channel reacted in is not one of the guild's: the handler fails. */
      MissingChannel
    | /** The closing check reads the first embed of a message that has none: the handler fails. */
      NoEmbed
    | /** The discussion channel was deleted. */
      Closed
    | /** Not the arrow: nothing more to do. */
      Ignored
    | /** The reactor is blacklisted: only this notice is posted. */
      Blacklisted(notice: string)
    | /** A new discussion channel was created. */
      Created
    | /** The reactor was given read and send on the existing discussion channel. */
      Joined

  /** The reactor's overwrite set to exactly read and send allowed. */
  function Grant(c: Channel, memberId: nat): Channel {
    c.(overwrites := c.overwrites[Member(memberId) := ReadWrite])
  }

  /** Every member listed granted read and send, in order. */
  function GrantAll(c: Channel, members: seq<nat>): Channel {
    if members == [] then c else Grant(GrantAll(c, members[..|members| - 1]), members[|members| - 1])
  }

  /** Granting to several members grants each of them and touches no other overwrite. */
  lemma {:induction false} GrantAllSpec(c: Channel, members: seq<nat>)
    ensures GrantAll(c, members).category == c.category
    ensures forall t :: t in GrantAll(c, members).overwrites <==>
      t in c.overwrites || (t.Member? && t.id in members)
    ensures forall t :: t in GrantAll(c, members).overwrites ==>
      GrantAll(c, members).overwrites[t] == if t.Member? && t.id in members then ReadWrite else c.overwrites[t]
  {
    if members != [] {
      GrantAllSpec(c, members[..|members| - 1]);
      assert forall id :: id in members <==> id in members[..|members| - 1] || id == members[|members| - 1];
    }
  }

  class Guild {
    const botId: nat
    const blacklist: set<nat>
    var channels: map<string, Channel>
    /** Category names; a category is identified by its index. */
    var categories: seq<string>

    ghost predicate Valid()
      reads this
    {
      forall name | name in channels :: channels[name].category.Some? ==> channels[name].category.value < |categories|
    }

    constructor(botId: nat, blacklist: set<nat>, channels: map<string, Channel>, categories: seq<string>)
      requires forall name | name in channels :: channels[name].category.Some? ==> channels[name].category.value < |categories|
      ensures Valid()
      ensures this.botId == botId && this.blacklist == blacklist
      ensures this.channels == channels && this.categories == categories
    {
      this.botId := botId;
      this.blacklist := blacklist;
      this.channels := channels;
      this.categories := categories;
    }

    /** `by_category()`: the uncategorised group first, if any channel has no category, then every category. */
    function ByCategory(): Groups
      reads this
    {
      (if exists name | name in channels :: channels[name].category.None? then [None] else [])
      + seq(|categories|, k => Some(k))
    }

    /** A cross by someone other than the bot, in a discussion channel, on a message of the bot's. */
    predicate CloseAttempt(emoji: string, origin: string, msg: Message, userId: nat) {
      emoji == CloseEmoji && userId != botId && IsDiscussion(origin) && msg.authorId == botId
    }

    /** The reaction handler. */
    method OnReactionAdd(emoji: string, origin: string, msg: Message, userId: nat) returns (outcome: AddOutcome)
      requires Valid()
      modifies this
      ensures Valid()
      ensures outcome == MissingChannel <==> origin !in old(channels)
      ensures outcome == NoEmbed <==> origin in old(channels) && CloseAttempt(emoji, origin, msg, userId) && msg.embeds == []
      ensures outcome == Closed <==> (origin in old(channels) && CloseAttempt(emoji, origin, msg, userId) &&
        msg.embeds != [] && msg.embeds[0] == Some(CloseSentinel))
      ensures outcome == Ignored <==> (origin in old(channels) && emoji != OpenEmoji &&
        !(CloseAttempt(emoji, origin, msg, userId) && (msg.embeds == [] || msg.embeds[0] == Some(CloseSentinel))))
      ensures outcome.Blacklisted? <==> origin in old(channels) && emoji == OpenEmoji && userId in blacklist
      ensures outcome.Blacklisted? ==> outcome.notice == BlacklistNotice
      ensures outcome == Created <==> (origin in old(channels) && emoji == OpenEmoji && userId !in blacklist &&
        DiscussionName(msg.id) !in old(channels))
      ensures outcome == Joined <==> (origin in old(channels) && emoji == OpenEmoji && userId !in blacklist &&
        DiscussionName(msg.id) in old(channels))
      ensures outcome == Closed ==> channels == old(channels) - {origin} && categories == old(categories)
      ensures outcome in {MissingChannel, NoEmbed, Ignored} || outcome.Blacklisted? ==>
        channels == old(channels) && categories == old(categories)
      ensures outcome == Created ==>
        var found := LastThreads(old(ByCategory()), old(categories));
        && categories == old(categories) + (if found.None? then [ThreadsCategory] else [])
        && channels == old(channels)[DiscussionName(msg.id) :=
             Channel(Some(if found.None? then |old(categories)| else found.value),
                     map[Everyone := Hidden, Member(botId) := Reader, Member(userId) := Reader, Member(msg.authorId) := Reader])]
      ensures outcome == Joined ==>
        var name := DiscussionName(msg.id);
        channels == old(channels)[name := Grant(old(channels)[name], userId)] && categories == old(categories)
    {
      if origin !in channels {
        return MissingChannel;
      }
      if emoji == CloseEmoji && userId != botId {
        if IsDiscussion(origin) && msg.authorId == botId {
          if msg.embeds == [] {
            return NoEmbed;
          }
          if msg.embeds[0] == Some(CloseSentinel) {
            channels := channels - {origin};
            return Closed;
          }
        }
      }
      if emoji != OpenEmoji {
        return Ignored;
      }
      if userId in blacklist {
        return Blacklisted(BlacklistNotice);
      }
      var name := DiscussionName(msg.id);
      if name !in channels {
        var category := FindThreadsCategory(ByCategory(), categories);
        LastThreadsIsLast(ByCategory(), categories);
        if category.None? {
          categories := categories + [ThreadsCategory];
          category := Some(|categories| - 1);
        }
        CreationOverwrites(botId, userId, msg.authorId);
        channels := channels[name := Channel(category, DictLiteral(CreationEntries(botId, userId, msg.authorId)))];
        return Created;
      }
      channels := channels[name := Grant(channels[name], userId)];
      return Joined;
    }

    /** Removing any reaction revokes read and send on the message's discussion channel, if there is one. */
    method OnReactionRemove(messageId: nat, userId: nat) returns (revoked: bool)
      requires Valid()
      modifies this
      ensures Valid()
      ensures revoked <==> DiscussionName(messageId) in old(channels)
      ensures revoked ==>
        var name := DiscussionName(messageId);
        var c := old(channels)[name];
        channels == old(channels)[name := c.(overwrites := c.overwrites[Member(userId) := Revoked])]
      ensures !revoked ==> channels == old(channels)
      ensures channels.Keys == old(channels).Keys && categories == old(categories)
    {
      var name := DiscussionName(messageId);
      revoked := name in channels;
      if revoked {
        var c := channels[name];
        channels := channels[name := c.(overwrites := c.overwrites[Member(userId) := Revoked])];
      }
    }

    /** `add_user`: in a discussion channel, the member is granted read and send. */
    method AddUser(channel: string, memberId: nat) returns (added: bool)
      requires Valid() && channel in channels
      modifies this
      ensures Valid()
      ensures added <==> IsDiscussion(channel)
      ensures added ==> channels == old(channels)[channel := Grant(old(channels)[channel], memberId)]
      ensures !added ==> channels == old(channels)
      ensures categories == old(categories)
    {
      added := IsDiscussion(channel);
      if added {
        channels := channels[channel := Grant(channels[channel], memberId)];
      }
    }

    /**
     * The mention loop of the message handler: messages from bots are
     * dropped unless a webhook sent them; in a discussion channel every
     * member mentioned is granted read and send.
     */
    method OnMessage(authorIsBot: bool, viaWebhook: bool, channel: string, mentions: seq<nat>) returns (granted: bool)
      requires Valid() && channel in channels
      modifies this
      ensures Valid()
      ensures granted <==> !(authorIsBot && !viaWebhook) && IsDiscussion(channel)
      ensures granted ==> channels == old(channels)[channel := GrantAll(old(channels)[channel], mentions)]
      ensures !granted ==> channels == old(channels)
      ensures categories == old(categories)
    {
      if authorIsBot && !viaWebhook {
        return false;
      }
      granted := IsDiscussion(channel);
      if granted {
        var i := 0;
        while i < |mentions|
          invariant 0 <= i <= |mentions|
          invariant categories == old(categories)
          invariant channels == old(channels)[channel := GrantAll(old(channels)[channel], mentions[..i])]
        {
          assert mentions[..i + 1][..i] == mentions[..i];
          channels := channels[channel := Grant(channels[channel], mentions[i])];
          i := i + 1;
        }
        assert mentions[..i] == mentions;
        GrantAllSpec(old(channels)[channel], mentions);
      }
    }
  }

  /**
   * A member opens a discussion about a message, then reacts with the cross
   * to the closing message the bot posted there: the new channel is gone
   * and every other channel is as before (a "threads" category created on
   * the way stays).
   */
  method OpenThenClose(g: Guild, origin: string, msg: Message, userId: nat, closeId: nat)
    requires g.Valid() && origin in g.channels
    requires userId != g.botId && userId !in g.blacklist && DiscussionName(msg.id) !in g.channels
    modifies g
    ensures g.Valid() && g.channels == old(g.channels)
  {
    var open := g.OnReactionAdd(OpenEmoji, origin, msg, userId);
    assert open == Created;
    var closing := Message(closeId, g.botId, [Some(CloseSentinel)]);
    var closed := g.OnReactionAdd(CloseEmoji, DiscussionName(msg.id), closing, userId);
    assert closed == Closed;
  }
}
