# discord-code core, modelled in Dafny

This project models the decision logic of a single-file Discord bot
(`main.py`). It has four parts:

- **`run`** (`run.dfy`, module `Run`). It parses a code-block argument:
  - it splits the argument at the first newline and checks the fences;
  - it reads the language tag and lower-cases it;
  - it looks the tag up in the command table, which includes the C++ aliases;
  - it cleans the program text with `rstrip("`")` and `replace("```", "")`.

  Compiler output shorter than 1992 characters is posted inline. Longer output is replaced by a share link.
- **`cpp`** (`search.dfy`, module `Search`). It takes the result headings of a cppreference search as (href, text) pairs. It keeps the `/w/cpp` ones and splits them, in order, into language results and library results. Then it picks one of three layouts:
  - language results plus at most 10 library results;
  - at most 15 library results;
  - "No results found."
- **`members`** (`rolequery.dfy`, module `RoleQuery`, and `members.dfy`, module `Members`).
  - It tokenises and validates a role query. The query is built from `( ) and or not @role`.
  - It evaluates the query for every guild member in guild order, using Python's operator precedence.
  - It collects the mentions of the matching members into chunks. A chunk is flushed once it is longer than 1950 characters.
  - It posts each chunk as an embed (`student`) or as pinging text (`teacher`, privileged callers only). Anything else posts nothing.
- **Discussion channels** (`discussion.dfy`, module `Discussion`). The guild is a class holding its channels by name, its categories and the blacklist. One method per event mutates that state:
  - a reaction added (open, join or close a `discussion-<message id>` channel);
  - a reaction removed (revoke access);
  - `add_user` (grant access);
  - mentions inside a discussion channel (grant access).

Shared pieces:

- `text.dfy` (module `Text`) holds the Python string operations the code relies on: `startswith`, `rstrip`/`lstrip`/`strip`, `replace`, `lower`, and `split()`. `" ".join` is there only for the `SplitJoin` round-trip with `split()`.
- `wrappers.dfy` holds `Option` and `Result`.

The role query is evaluated by Python's `eval`. So a call trailer `( … )` binds tightest, then `not`, then `and`, then `or`. `RoleQuery.Parse` is a precedence parser for that grammar over the query's tokens. `RoleQuery.Eval` gives each member's result, or `None` where `eval` raises: calling a bool or a tuple raises TypeError once the call is reached. The `members` command is modelled with both of its defects (see "## Findings") corrected.

## Model

| member | source | states |
|---|---|---|
| Run.CommandFor | main.py:33-52 | A tag succeeds exactly when it is one of the ten table keys, and then yields one of the four commands. Otherwise the error is "Could not find a language to compile with." for the empty tag, or "Unknown language to compile for: " followed by the tag. |
| Run.CommandTable | main.py:34-44 | "c" gives the gcc command and "haskell" the runhaskell command. "cc", "h", "c++", "h++" and "hpp" give the same command as "cpp", and "py" gives the same command as "python". |
| Run.SplitLine | main.py:21-24 | `split("\n", 1)` fails exactly when there is no newline. Otherwise the argument is the first part, a newline, then the rest, and the first part holds no newline. |
| Run.ParseCodeBlock | main.py:20-31 | No newline gives the missing-code-block error. That error is also raised exactly when the first line lacks an opening fence and the rest lacks a closing one. Any other error is the language lookup's error on the lower-cased tag (the first line minus its first 3 characters). On success the command is that lookup's result and the source is the cleaned code, which has no trailing backtick and no "```". |
| Run.SourceIsClean | main.py:31 | The cleaned source never ends in a backtick and never contains "```". |
| Run.RemoveFencesKeepsText | main.py:31 | Removing fences removes only backticks: every other character survives, in order. |
| Run.RemoveFencesNoFence | main.py:31 | After `replace("```", "")` no "```" is left, even where removing one fence brings backticks together. |
| Run.RouteOutput | main.py:83-85 | The output is posted inline exactly when it is shorter than 1992 characters. The inline message then fits Discord's 2000-character limit and contains the output. |
| Search.LanguagePageIsCppPage | main.py:125-128 | Every `/w/cpp/language` or `/w/cpp/concept` href also passes the `/w/cpp` filter. |
| Search.Classify | main.py:121-132 | The loop leaves `special_pages` equal to the language results of the headings and `description` equal to their library results. |
| Search.ResultsAppend | main.py:121-132 | Classification preserves order: the results of a concatenation are the concatenated results. |
| Search.LanguageResultsMembers | main.py:123-130 | An entry is a language result exactly when some language/concept heading produced it. |
| Search.LibraryResultsMembers | main.py:123-132 | An entry is a library result exactly when some other `/w/cpp` heading produced it. |
| Search.NoCppPages | main.py:123-126 | Both lists are empty exactly when no heading links under `/w/cpp`. |
| Search.Layout | main.py:134-149 | "No results found." exactly when both lists are empty. The grouped layout exactly when there are language results; it keeps all of them and the first min(n, 10) library results. Otherwise the flat layout, with the first min(n, 15) library results, which is never empty. |
| Search.SearchResults | main.py:121-149 | The command's view is the layout of the classified headings. It is "No results found." exactly when no heading is a C++ page, and it shows at most 10 or at most 15 library entries. |
| Text.SplitJoin | main.py:273 | `split()` recovers the words that `" ".join` put together. |
| RoleQuery.Validate | main.py:274-279 | The loop rejects the query ("Unrecognized input") exactly when some token is neither an operator nor starts with "@". Otherwise the dictionary keys are the role names, in order of first occurrence. |
| RoleQuery.DictKeysAreRoleNames | main.py:274-279 | The dictionary keys are exactly the names referenced, each once. |
| RoleQuery.FindRole | main.py:283 | `discord.utils.get` by name finds nothing exactly when no guild role has the name. Otherwise it finds the first role in guild order with that name. |
| RoleQuery.HasRole | main.py:282-283 | `check` holds exactly when the first guild role with that name is one of the member's roles. |
| RoleQuery.UnknownRoleIsFalse | main.py:282-283 | A reference to a role the guild does not have is false for every member. |
| RoleQuery.Eval | main.py:282-289 | A condition without a call trailer always gives a value for every member; only a reached call makes `eval` raise. |
| RoleQuery.ParseRefs | main.py:274-289 | Every role a parsed query refers to is named by one of its `@` tokens, so it is a key of the dictionary and gets substituted. |
| RoleQuery.Substitute | main.py:285-286 | Text containing no "@" is handed to `eval` unchanged, whatever the dictionary holds. |
| RoleQuery.Precedence | main.py:272-289 | `@a or @b and @c` groups as `@a or (@b and @c)`, and `not @a and @b` as `(not @a) and @b`. `@a and` is a syntax error, and `not ( )` negates the empty tuple. |
| RoleQuery.CallPrecedence | main.py:272-289 | `not @a ( )` negates the call `@a ( )`: a trailer binds tighter than `not`. |
| RoleQuery.CallArgument | main.py:272-289 | `@a ( @b )` is a call of `@a` with the argument `@b`. |
| RoleQuery.CallsRaiseWhenReached | main.py:272-289 | `not ( ) or @a ( )` parses, and holds for every member because the call is never reached. `@a or @b ( )` raises exactly for the members without `@a`. |
| RoleQuery.ParsePrint | main.py:272-289 | Every condition tree, calls included, written out fully parenthesised, parses back to itself. |
| RoleQuery.EvalAsWritten | main.py:286-289 | As written, evaluation only gives a value if the condition contains an empty tuple `( )`. |
| RoleQuery.AsWrittenFailsOnRoles | main.py:286-289 | As written, every condition built from role references with `not`, `and` and `or` fails (NameError on `member`) instead of producing a value, whatever the member. |
| RoleQuery.AsWrittenAgreesWhenDefined | main.py:286-289 | Wherever the as-written evaluation does produce a value, it is the value of the corrected evaluation `Eval`. |
| RoleQuery.PrefixCollision | main.py:274-286 | For any names `a` and `ax` (x non-empty, no "@"), the dictionary lists `a` first. The substituted text of `@a and @ax` then reads `check('a',member)x` where the call for `ax` belongs. |
| RoleQuery.NoPrefixCollision | main.py:272-288 | The token-level reading of `@a and @ax` is `a` and `ax`, each with its own name. |
| RoleQuery.CollisionTokens | main.py:272-273 | `@a and @ab` tokenises into `@a`, `and`, `@ab`. |
| Members.Deliver | main.py:291-299 | A flush posts an embed exactly for "student", and plain text exactly for "teacher" from a webhook, an administrator or the owner id. Otherwise it posts nothing. |
| Members.StudentPostsEveryChunk | main.py:291-293 | With "student", every flushed chunk is posted, in order, as an embed holding exactly that chunk. |
| Members.TeacherPostsEveryChunk | main.py:294-299 | With "teacher" and a privileged caller, every flushed chunk is posted, in order, as text. |
| Members.OthersPostNothing | main.py:291-310 | Any other subcommand, or "teacher" from an unprivileged caller, posts nothing, although chunks are still flushed and reset. |
| Members.AccumulateCovers | main.py:287-300 | The chunks flushed in the loop, followed by the remaining `out`, are the " " + mention pieces of the matching members, in guild order. |
| Members.AccumulateBounds | main.py:287-300 | `out` holds at most 1950 characters between members. Every in-loop flush is longer than 1950 characters, ends with a matching member's piece, and was at most 1950 characters before that piece. |
| Members.FlushesCover | main.py:287-310 | All flushed chunks, including the final remainder, concatenate to the matching pieces in guild order, and none is empty. |
| Members.NoMatchNoFlush | main.py:287-302 | When no member matches, nothing is flushed. |
| Members.ChunksFitMessage | main.py:290 | With mentions of at most 49 characters, every flushed chunk fits one 2000-character message. |
| Members.FirstFailure | main.py:288-289 | The index of the first member for whom `eval` raises; every member before it gets a value. |
| Members.NoCallNeverRaises | main.py:288-289 | A query without call trailers raises for no member. |
| Members.CollectMentions | main.py:287-310 | If `eval` raises for no member, the loop posts exactly the deliveries of the flushed chunks: in-loop flushes first, then the non-empty remainder. If it raises, it does so at the first failing member, and only the chunks flushed before that member were posted. |
| Members.MembersCommand | main.py:264-310 | The command with both findings corrected. It ends by posting only "Unrecognized input" exactly when some token is invalid. It raises exactly when the tokens are valid and either the text is not an expression and there is a member, or `eval` raises for some member; the replies are then the chunks flushed before the first failing member. Otherwise its replies are the deliveries of all flushed chunks for the parsed condition. |
| Discussion.DiscussionName | main.py:176 | The channel name for a message starts with "discussion-". |
| Discussion.DictLiteralKeys | main.py:188-195 | A dict display has exactly the keys of its entries. |
| Discussion.DictLiteralLastWins | main.py:188-195 | A key maps to the value of its last entry. |
| Discussion.CreationOverwrites | main.py:188-195 | A new channel's overwrites are: default role read=false, and bot, reactor and author read=true with send unset. The later duplicate keys replace the send grants, also when reactor, author and bot coincide. |
| Discussion.LastThreadsIsLast | main.py:181-185 | The category loop's result is a "threads" category exactly when one exists, and no later group names one. |
| Discussion.FindThreadsCategory | main.py:179-185 | The loop skips the uncategorised group and keeps the last category named "threads". |
| Discussion.GrantAllSpec | main.py:255-259 | Granting to the mentioned members sets each of them to read+send and leaves every other overwrite and the category alone. |
| Discussion.Guild.OnReactionAdd | main.py:158-223 | The handler's outcomes, each with its exact condition:<br>- it fails if the channel is missing;<br>- it fails if the close check reads the first embed of a message that has none;<br>- ❌ by a non-bot user deletes the channel, and only that channel, if it is a discussion channel, the message is the bot's and its first embed is the closing sentinel;<br>- other emoji are ignored;<br>- a blacklisted user only gets the blacklist notice and changes nothing;<br>- otherwise the handler either creates exactly `discussion-<id>` (creating "threads" only if no such category exists) with the overwrites above, or gives only the reactor read+send on the existing channel. |
| Discussion.Guild.OnReactionRemove | main.py:226-235 | Removing any reaction sets the user's read and send to false on an existing `discussion-<id>`. It never creates or deletes a channel, and changes nothing when that channel is absent. |
| Discussion.Guild.AddUser | main.py:238-244 | In a discussion channel the member gets read+send on that channel. Anywhere else nothing changes. |
| Discussion.Guild.OnMessage | main.py:247-260 | Messages from bots are ignored unless a webhook sent them. In a discussion channel, every mentioned member gets read+send. Nothing else changes. |
| Discussion.OpenThenClose | main.py:162-208 | Opening a discussion about a message and then reacting ❌ on the bot's closing message leaves the guild's channels as they were. |

## Left out

- Coliru and cppreference HTTP traffic, status codes and response bodies, and the lxml HTML parsing: network I/O and a foreign library. The model starts from the compiler output and from the extracted (href, text) pairs.
- Discord gateway calls (fetching guilds, channels, messages and members; sending, deleting after a delay; adding reactions), embeds, footers, URLs and timestamps. These are I/O and presentation. State changes are modelled on the abstract guild, and posted chunks as `Reply` values.
- async scheduling, `on_ready`, `bot.run` and the `print` calls: concurrency and process plumbing.
- `process_commands` at the end of `on_message`: command dispatch glue.
- Discussion.Guild.OnMessage: the grant loop is modelled as if the `members` call that `on_message` makes first, with "teacher" and `content[18:]`, returned. As written, that call raises exactly when every token of `content[18:]` is valid, the guild has a member, and the text either is not an expression or its as-written evaluation raises. Every role reference that evaluation reaches raises; a value comes only from `( )`, as `RoleQuery.EvalAsWritten` states. For example, any message of at most 18 characters gives `eval("")`, a SyntaxError, while `not ( )` evaluates to True for every member and raises nothing. `on_message` stops before the grants whenever that call raises, so they happen only when it returns.
- Text.Lower: models `str.lower()` on ASCII letters only. Python also folds non-ASCII letters (e.g. KELVIN SIGN to "k"), which could make a non-ASCII tag match a table key.
- `eval` itself is replaced by a parser and evaluator for Python's grammar over the query's tokens. Role names containing quotes, backslashes or "@", and query text spanning several lines, could make Python read the substituted text differently. So can whitespace other than space, tab and form feed between tokens (U+000B, U+001C–U+001F, U+0085, U+00A0, U+1680, U+2000–U+200A, U+2028, U+2029, U+202F, U+205F and U+3000): `split()` separates tokens at it, but Python's tokenizer rejects it with a SyntaxError, so `eval` raises where the model parses the tokens. None of these are modelled.
- `members` with no query text at all is refused by the command framework before the body runs. That case is not modelled.
- Members.MembersCommand: models the command with both findings corrected. As written, every query that reaches a role reference raises NameError at the first member, and a query with one role name a prefix of another is substituted into a different expression. Python's limit on parenthesis nesting (a SyntaxError for very deep queries) is not modelled; here any depth parses.
- ParsePrint: the parser is shown to read back every printed tree, and `Precedence`, `CallPrecedence`, `CallArgument` and `CallsRaiseWhenReached` pin its groupings on concrete queries. It is not proved equal to Python's parser, which is not part of this model.
- A missing member (`get_member` returning nothing) is not modelled; the reacting or mentioned user is assumed to be in the guild.
- Channels are keyed by name. Two channels with the same name, and non-text channels named like a discussion channel, are not modelled.
- Category positions are not modelled: a created category is appended after the existing ones.
- A search heading with no text renders as "None" in Python. Here the text is always a string.
- The blacklist is a constructor argument. In the source it is an empty list that nothing changes, so the blacklisted branch is unreachable there.

## Findings

| source | as written | input that shows it | evidently intended | confidence | as-written member | corrected member |
|---|---|---|---|---|---|---|
| main.py:286-288 | The substituted text calls `check('<role>',member)`, but the loop variable is `i` and no `member` exists in scope, so `eval` raises NameError at the first role reference it evaluates | `!members student @a` in a guild with at least one member | the role condition evaluated for the current member `i` | high, not executed | RoleQuery.AsWrittenFailsOnRoles | RoleQuery.AsWrittenAgreesWhenDefined |
| main.py:285-286 | Role references are substituted by plain `str.replace`, in dictionary order, so `@a` is also replaced inside `@ab` | `!members student @a and @ab` | each `@name` token replaced by the check for exactly that name | high, not executed | RoleQuery.PrefixCollision | RoleQuery.NoPrefixCollision |
