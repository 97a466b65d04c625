/**
 * The `run` command: parsing of its code-block argument (the `CodeBlock`
 * converter), the table from language tag to compile command, and the rule
 * that decides whether the compiler output is posted inline or as a link.
 */
module Run {
  import opened Wrappers
  import opened Text

  const Fence := "```"

  const MissingError := "Missing code block. " + "Please use the following markdown\n\\`\\`\\`language\ncode here\n\\`\\`\\`"
  const NoLanguageError := "Could not find a language to compile with."
  const UnknownLanguagePrefix := "Unknown language to compile for: "

  const CppCommand := "g++ -std=c++1z -O2 -Wall -Wextra -pedantic -pthread main.cpp -lstdc++fs && ./a.out"
  const CCommand := "mv main.cpp main.c && gcc -std=c11 -O2 -Wall -Wextra -pedantic main.c && ./a.out"
  const PythonCommand := "python3 main.cpp"
  const HaskellCommand := "runhaskell main.cpp"

  /** Tags that reuse the C++ command. */
  const CppAliases: seq<string> := ["cc", "h", "c++", "h++", "hpp"]

  /** The command table: the five literal entries, then every C++ alias. */
  const Commands: map<string, string> :=
    map["cpp" := CppCommand, "c" := CCommand, "py" := PythonCommand,
        "python" := PythonCommand, "haskell" := HaskellCommand]
    + map a | a in CppAliases :: CppCommand

  /** The table's keys, and the commands it holds. */
  lemma CommandsShape()
    ensures forall l :: l in Commands <==> l in {"cpp", "c", "py", "python", "haskell", "cc", "h", "c++", "h++", "hpp"}
    ensures forall l | l in Commands :: Commands[l] in {CppCommand, CCommand, PythonCommand, HaskellCommand}
  {
    CommandsKeys();
    CommandsValues();
  }

  lemma CommandsKeys()
    ensures forall l :: l in Commands <==> l in {"cpp", "c", "py", "python", "haskell", "cc", "h", "c++", "h++", "hpp"}
  {
    assert forall a :: a in CppAliases <==> a in {"cc", "h", "c++", "h++", "hpp"};
  }

  lemma CommandsValues()
    ensures forall l | l in Commands :: Commands[l] in {CppCommand, CCommand, PythonCommand, HaskellCommand}
  {
  }

  /** A successfully parsed argument: what Coliru runs and the program text. */
  datatype CodeBlock = CodeBlock(command: string, source: string)

  /** Looks a lower-cased language tag up; raises one of two messages when absent. */
  function CommandFor(language: string): (r: Result<string>)
    ensures r.Ok? <==> language in {"cpp", "c", "py", "python", "haskell", "cc", "h", "c++", "h++", "hpp"}
    ensures r.Ok? ==> r.value in {CppCommand, CCommand, PythonCommand, HaskellCommand}
    ensures r.Err? && language == "" ==> r.message == NoLanguageError
    ensures r.Err? && language != "" ==> r.message == UnknownLanguagePrefix + language
    ensures r.Err? ==> r.message != MissingError
  {
    CommandsShape();
    if language in Commands then Ok(Commands[language])
    else if language != "" then
      assert UnknownLanguagePrefix[0] == 'U' && MissingError[0] == 'M';
      assert (UnknownLanguagePrefix + language)[0] != MissingError[0];
      Err(UnknownLanguagePrefix + language)
    else Err(NoLanguageError)
  }

  /** The command table: every C++ alias compiles exactly as "cpp" does, "py" runs as "python", and "c" and "haskell" have their own commands. */
  lemma CommandTable()
    ensures forall a | a in CppAliases :: CommandFor(a) == CommandFor("cpp") == Ok(CppCommand)
    ensures CommandFor("c") == Ok(CCommand)
    ensures CommandFor("py") == CommandFor("python") == Ok(PythonCommand)
    ensures CommandFor("haskell") == Ok(HaskellCommand)
  {
  }

  /** `s.split("\n", 1)`: the text before the first newline and the rest, if there is a newline. */
  function SplitLine(s: string): (r: Option<(string, string)>)
    ensures r.None? <==> '\n' !in s
    ensures r.Some? ==> s == r.value.0 + "\n" + r.value.1 && '\n' !in r.value.0
  {
    if s == [] then None
    else if s[0] == '\n' then Some(("", s[1..]))
    else match SplitLine(s[1..])
      case None => None
      case Some((line, rest)) => Some(([s[0]] + line, rest))
  }

  /** `block[3:]`: the first line without its first three characters (empty when shorter). */
  function LanguageTag(block: string): string {
    if |block| >= 3 then block[3..] else ""
  }

  /** `s.replace("```", "")`. */
  function RemoveFences(s: string): string {
    Replace(s, Fence, "")
  }

  /** The program text sent to the compiler. */
  function Source(code: string): string {
    RemoveFences(RStrip(code, '`'))
  }

  /** The characters of `s` other than backticks, in order. */
  function NonBackticks(s: string): (r: string)
    ensures '`' !in r
  {
    if s == [] then "" else (if s[0] == '`' then "" else [s[0]]) + NonBackticks(s[1..])
  }

  lemma {:induction false} NonBackticksAppend(a: string, b: string)
    ensures NonBackticks(a + b) == NonBackticks(a) + NonBackticks(b)
  {
    if a != [] {
      assert (a + b)[1..] == a[1..] + b;
      NonBackticksAppend(a[1..], b);
    } else {
      assert a + b == b;
    }
  }

  /** One step of the scan. */
  lemma RemoveFencesStep(s: string)
    ensures StartsWith(s, Fence) ==> RemoveFences(s) == RemoveFences(s[3..])
    ensures !StartsWith(s, Fence) && s != [] ==> RemoveFences(s) == [s[0]] + RemoveFences(s[1..])
  {
    if StartsWith(s, Fence) {
      assert RemoveFences(s) == "" + RemoveFences(s[3..]);
    }
  }

  /** Removing fences only ever removes backticks: every other character survives, in order. */
  lemma {:induction false} RemoveFencesKeepsText(s: string)
    ensures NonBackticks(RemoveFences(s)) == NonBackticks(s)
  {
    RemoveFencesStep(s);
    if StartsWith(s, Fence) {
      RemoveFencesKeepsText(s[3..]);
      assert s == s[..3] + s[3..];
      NonBackticksAppend(s[..3], s[3..]);
      assert NonBackticks(s[..3]) == "";
    } else if s != [] {
      RemoveFencesKeepsText(s[1..]);
      NonBackticksAppend([s[0]], RemoveFences(s[1..]));
      assert s == [s[0]] + s[1..];
      NonBackticksAppend([s[0]], s[1..]);
    }
  }

  /** If the result starts with `n` backticks (`n` at most two), so did the input. */
  lemma {:induction false} RemoveFencesLeadingBackticks(s: string, n: nat)
    requires n <= 2
    requires |RemoveFences(s)| >= n && forall i :: 0 <= i < n ==> RemoveFences(s)[i] == '`'
    ensures |s| >= n && forall i :: 0 <= i < n ==> s[i] == '`'
  {
    RemoveFencesStep(s);
    if StartsWith(s, Fence) {
      assert forall i :: 0 <= i < 3 ==> s[i] == s[..3][i] == Fence[i];
    } else if s != [] {
      assert n > 0 ==> s[0] == RemoveFences(s)[0];
      if n == 2 {
        assert RemoveFences(s[1..])[0] == RemoveFences(s)[1];
        RemoveFencesLeadingBackticks(s[1..], 1);
        assert s[1..][0] == s[1];
      }
    }
  }

  /** No "```" is left in the result. */
  lemma {:induction false} RemoveFencesNoFence(s: string)
    ensures !Contains(RemoveFences(s), Fence)
  {
    var r := RemoveFences(s);
    assert |Fence| == 3;
    RemoveFencesStep(s);
    if StartsWith(s, Fence) {
      RemoveFencesNoFence(s[3..]);
    } else if s != [] {
      var tail := RemoveFences(s[1..]);
      RemoveFencesNoFence(s[1..]);
      assert r == [s[0]] + tail;
      forall i | 0 <= i <= |r| ensures !OccursAt(r, Fence, i) {
        if i == 0 {
          if OccursAt(r, Fence, 0) {
            assert r[..3] == Fence;
            assert r[0] == s[0] == '`' && r[1] == tail[0] == '`' && r[2] == tail[1] == '`';
            RemoveFencesLeadingBackticks(s[1..], 2);
          }
        } else if i + 3 <= |r| {
          assert r[i..i + 3] == tail[i - 1..i + 2];
          assert !OccursAt(tail, Fence, i - 1);
        }
      }
    }
  }

  /** A non-empty input that does not end in a backtick keeps its last character. */
  lemma {:induction false} RemoveFencesKeepsLast(s: string)
    requires s != [] && s[|s| - 1] != '`'
    ensures RemoveFences(s) != [] && RemoveFences(s)[|RemoveFences(s)| - 1] == s[|s| - 1]
  {
    RemoveFencesStep(s);
    if StartsWith(s, Fence) {
      RemoveFencesKeepsLast(s[3..]);
    } else if |s| > 1 {
      RemoveFencesKeepsLast(s[1..]);
    }
  }

  /** Program text that does not end in a backtick and holds no fence. */
  predicate Clean(src: string) {
    (src == [] || src[|src| - 1] != '`') && !Contains(src, Fence)
  }

  /** The compiled source never ends in a backtick and holds no fence. */
  lemma SourceIsClean(code: string)
    ensures Clean(Source(code))
  {
    var stripped := RStrip(code, '`');
    RemoveFencesNoFence(stripped);
    if stripped != [] {
      RemoveFencesKeepsLast(stripped);
    } else {
      assert Source(code) == "";
    }
  }

  /** The `CodeBlock` converter: split, fence check, command lookup, source cleanup. */
  function ParseCodeBlock(argument: string): (r: Result<CodeBlock>)
    ensures '\n' !in argument ==> r == Err(MissingError)
    ensures SplitLine(argument).Some? ==>
      var (block, code) := SplitLine(argument).value;
      && (r == Err(MissingError) <==> !StartsWith(block, Fence) && !EndsWith(code, Fence))
      && (r.Err? && r != Err(MissingError) ==> CommandFor(Lower(LanguageTag(block))) == Err(r.message))
      && (r.Ok? ==> CommandFor(Lower(LanguageTag(block))) == Ok(r.value.command)
                    && r.value.source == Source(code))
    ensures r.Ok? ==> Clean(r.value.source)
  {
    match SplitLine(argument)
    case None => Err(MissingError)
    case Some((block, code)) =>
      if !StartsWith(block, Fence) && !EndsWith(code, Fence) then Err(MissingError)
      else match CommandFor(Lower(LanguageTag(block)))
        case Err(message) => Err(message)
        case Ok(command) => SourceIsClean(code); Ok(CodeBlock(command, Source(code)))
  }

  /** Output shorter than this is posted inline. */
  const InlineLimit := 1992
  /** Discord's limit on the length of a message. */
  const MessageLimit := 2000

  datatype RunReply = Inline(text: string) | ShareLink

  /** The `run` command's choice between an inline code block and a Coliru share link. */
  function RouteOutput(output: string): (r: RunReply)
    ensures r.Inline? <==> |output| < InlineLimit
    ensures r.Inline? ==> |r.text| < MessageLimit && Contains(r.text, output)
  {
    if |output| < InlineLimit then
      var text := "```\n" + output + "\n```";
      assert OccursAt(text, output, 4);
      Inline(text)
    else ShareLink
  }
}
