/** myshell_parser.c as it runs: one pass over the line that fills buffers and extends a linked
    list of commands. A buffer is the sequence of characters put into it; one that has been
    allocated and not yet filled holds the marker '&'. */
module Parsers {
  import opened Common
  import opened ParserModel

  function Buffer(s: string): string {
    if s == "" then "&" else s
  }

  /** What storing `letter` at position `pos` leaves of a buffer. */
  function Stored(buf: string, pos: nat, letter: char): string
    requires pos <= |buf|
  {
    buf[..pos] + [letter]
  }

  /** The first letter overwrites the marker; later ones are appended. */
  lemma StoredIsAppended(s: string, letter: char)
    ensures |s| <= |Buffer(s)| && Stored(Buffer(s), |s|, letter) == Buffer(s + [letter])
  {
    assert s != "" ==> s[..|s|] == s;
  }

  function Pointers(args: seq<string>): (ps: seq<Option<string>>)
    ensures |ps| == |args|
  {
    seq(|args|, i requires 0 <= i < |args| => Some(args[i]))
  }

  class PipelineCommand {
    var command_args: seq<Option<string>>
    var redirect_in_path: Option<string>
    var redirect_out_path: Option<string>
    var next: PipelineCommand?

    /** One marked argument buffer; the other fields hold anything. */
    constructor ()
      ensures command_args == [Some("&")]
    {
      command_args := [Some("&")];
    }

    /** The command holds the words read so far and the unfinished one. */
    ghost predicate Reading(args: seq<string>, word: string)
      reads this
    {
      command_args == Pointers(args) + [Some(Buffer(word))]
    }

    ghost predicate Allocated(input: string, output: string)
      reads this
    {
      redirect_in_path == Some(Buffer(input)) && redirect_out_path == Some(Buffer(output))
    }

    /** The command is complete: its words up to a NULL, and paths or NULL. */
    ghost predicate Finished(c: Command)
      reads this
    {
      && command_args == Pointers(c.args) + [None]
      && redirect_in_path == c.input && redirect_out_path == c.output
    }

    method AllocateRedirects()
      modifies this
      ensures Allocated("", "")
      ensures command_args == old(command_args) && next == old(next)
    {
      redirect_in_path := Some("&");
      redirect_out_path := Some("&");
    }

    /** What `|` and the end of the line do to a command: NULL after the last word, and NULL for
        a path that was not filled. */
    method Terminate(commandArgPos: nat, ghost p: Parse)
      requires Reading(p.args, p.word) && Allocated(p.input, p.output) && MarkerFree(p) && commandArgPos == |p.args|
      modifies this
      ensures Finished(Close(p)) && next == old(next)
    {
      if command_args[commandArgPos].value[0] == '&' {
        command_args := command_args[..commandArgPos] + [None];
      } else {
        command_args := command_args[..commandArgPos + 1] + [None];
      }
      if redirect_in_path.value[0] == '&' {
        redirect_in_path := None;
      }
      if redirect_out_path.value[0] == '&' {
        redirect_out_path := None;
      }
      assert command_args == Pointers(Collected(p)) + [None];
    }

    /** `characterInsert` */
    method CharacterInsert(commandArgPos: nat, inCheck: bool, outCheck: bool, letter: char,
        argStorePos: nat, redirectInPos: nat, redirectOutPos: nat, ghost p: Parse)
      returns (argStorePos': nat, redirectInPos': nat, redirectOutPos': nat)
      requires Reading(p.args, p.word) && Allocated(p.input, p.output) && commandArgPos == |p.args|
      requires inCheck == (p.mode == In) && outCheck == (p.mode == Out)
      requires argStorePos == |p.word| && redirectInPos == |p.input| && redirectOutPos == |p.output|
      modifies this
      ensures Reading(Insert(p, letter).args, Insert(p, letter).word) &&
          Allocated(Insert(p, letter).input, Insert(p, letter).output) && next == old(next)
      ensures argStorePos' == |Insert(p, letter).word|
      ensures redirectInPos' == |Insert(p, letter).input| && redirectOutPos' == |Insert(p, letter).output|
    {
      hide Stored, Buffer;
      StoredIsAppended(p.input, letter);
      StoredIsAppended(p.output, letter);
      StoredIsAppended(p.word, letter);
      argStorePos', redirectInPos', redirectOutPos' := argStorePos, redirectInPos, redirectOutPos;
      if inCheck {
        redirect_in_path := Some(Stored(redirect_in_path.value, redirectInPos, letter));
        redirectInPos' := redirectInPos + 1;
      } else if outCheck {
        redirect_out_path := Some(Stored(redirect_out_path.value, redirectOutPos, letter));
        redirectOutPos' := redirectOutPos + 1;
      } else {
        command_args := command_args[commandArgPos :=
            Some(Stored(command_args[commandArgPos].value, argStorePos, letter))];
        argStorePos' := argStorePos + 1;
      }
    }
  }

  /** `newCommand` */
  method NewCommand(currentCommand: PipelineCommand) returns (tempCommand: PipelineCommand)
    modifies currentCommand`next
    ensures fresh(tempCommand) && currentCommand.next == tempCommand && tempCommand.command_args == [Some("&")]
  {
    tempCommand := new PipelineCommand();
    currentCommand.next := tempCommand;
  }

  /** `struct pipeline`; `nodes` are the commands of the list in order. */
  class PipelineList {
    var commands: PipelineCommand
    var is_background: bool
    ghost var nodes: seq<PipelineCommand>

    /** Both fields hold anything but what is stored in them; nothing stores the flag. */
    constructor (headCommand: PipelineCommand, garbage: bool)
      ensures commands == headCommand && nodes == [headCommand] && is_background == garbage
    {
      commands, is_background, nodes := headCommand, garbage, [headCommand];
    }

    /** Every command but the last is finished and linked to the next one. */
    ghost predicate Built(done: seq<Command>, background: bool)
      reads this, nodes
    {
      && |nodes| == |done| + 1 && commands == nodes[0]
      && (forall i, j | 0 <= i < j < |nodes| :: nodes[i] != nodes[j])
      && (forall i | 0 <= i < |done| :: nodes[i].Finished(done[i]) && nodes[i].next == nodes[i + 1])
      && is_background == background
    }

    /** The command being read: the last of the list, holding what has been read of it. */
    ghost predicate Current(c: PipelineCommand, done: seq<Command>, background: bool, args: seq<string>, word: string)
      reads this, nodes, c
    {
      Built(done, background) && |nodes| == |done| + 1 && c == nodes[|done|] && c.Reading(args, word)
    }

    /** The list is exactly this pipeline, and ends there. */
    ghost predicate Models(v: Pipeline)
      reads this, nodes
    {
      && |nodes| == |v.commands| >= 1 && commands == nodes[0] && is_background == v.is_background
      && (forall i | 0 <= i < |nodes| :: nodes[i].Finished(v.commands[i]))
      && (forall i | 0 <= i < |nodes| - 1 :: nodes[i].next == nodes[i + 1])
      && nodes[|nodes| - 1].next == null
    }

    /** Finishes the current command and links a new one behind it. */
    method Extend(currentCommand: PipelineCommand, commandArgPos: nat, ghost p: Parse)
        returns (tempCommand: PipelineCommand)
      requires Current(currentCommand, p.done, p.background, p.args, p.word) &&
          currentCommand.Allocated(p.input, p.output)
      requires MarkerFree(p) && commandArgPos == |p.args|
      modifies this`nodes, currentCommand
      ensures fresh(tempCommand) && nodes == old(nodes) + [tempCommand]
      ensures Current(tempCommand, p.done + [Close(p)], p.background, [], "")
    {
      hide Close;
      currentCommand.Terminate(commandArgPos, p);
      tempCommand := NewCommand(currentCommand);
      nodes := nodes + [tempCommand];
      assert Pointers([]) + [Some("&")] == [Some("&")];
    }

    /** Goes on to a new argument buffer. */
    method NextArgument(currentCommand: PipelineCommand, commandArgPos: nat, ghost p: Parse)
      requires Current(currentCommand, p.done, p.background, p.args, p.word) &&
          currentCommand.Allocated(p.input, p.output)
      requires p.word != "" && commandArgPos == |p.args| + 1
      modifies currentCommand
      ensures nodes == old(nodes) && currentCommand.Allocated(p.input, p.output)
      ensures Current(currentCommand, p.done, p.background, p.args + [p.word], "")
    {
      currentCommand.command_args := currentCommand.command_args[..commandArgPos] + [Some("&")];
      assert currentCommand.command_args == Pointers(p.args + [p.word]) + [Some("&")];
    }

    /** Puts a letter into the buffer being filled. */
    method Put(currentCommand: PipelineCommand, commandArgPos: nat, inCheck: bool, outCheck: bool, letter: char,
        argStorePos: nat, redirectInPos: nat, redirectOutPos: nat, ghost p: Parse)
      returns (argStorePos': nat, redirectInPos': nat, redirectOutPos': nat)
      requires Current(currentCommand, p.done, p.background, p.args, p.word) &&
          currentCommand.Allocated(p.input, p.output)
      requires inCheck == (p.mode == In) && outCheck == (p.mode == Out) && commandArgPos == |p.args|
      requires argStorePos == |p.word| && redirectInPos == |p.input| && redirectOutPos == |p.output|
      modifies currentCommand
      ensures nodes == old(nodes)
      ensures var q := Insert(p, letter);
              && Current(currentCommand, p.done, p.background, p.args, q.word) &&
                    currentCommand.Allocated(q.input, q.output)
              && argStorePos' == |q.word| && redirectInPos' == |q.input| && redirectOutPos' == |q.output|
    {
      argStorePos', redirectInPos', redirectOutPos' := currentCommand.CharacterInsert(
        commandArgPos, inCheck, outCheck, letter, argStorePos, redirectInPos, redirectOutPos, p);
    }
  }

  /** The variables of `pipeline_build` while it reads a line. */
  class Scanner {
    const pipe: PipelineList
    var currentCommand: PipelineCommand
    var argStorePos: nat
    var commandArgPos: nat
    var redirectInPos: nat
    var redirectOutPos: nat
    var riCheck: nat
    var roCheck: nat
    var inCheck: bool
    var outCheck: bool
    var mallocCheck: bool
    var doubleRedirectCheck: bool
    var ampersandPosCheck: bool

    /** The positions, modes and flags are those of the machine. */
    ghost predicate Counts(p: Parse)
      reads this
    {
      && commandArgPos == |p.args| && argStorePos == |p.word| && redirectInPos == |p.input| &&
            redirectOutPos == |p.output|
      && inCheck == (p.mode == In) && outCheck == (p.mode == Out) && riCheck == p.ins && roCheck == p.outs
      && doubleRedirectCheck == (p.stop == DoubleRedirect) && ampersandPosCheck == (p.stop == MisplacedAmpersand)
    }

    ghost predicate Tracks(p: Parse)
      reads this, pipe, pipe.nodes, currentCommand
    {
      && pipe.Current(currentCommand, p.done, p.background, p.args, p.word) && Counts(p) && MarkerFree(p)
      && (if mallocCheck then p.input == "" && p.output == "" else currentCommand.Allocated(p.input, p.output))
    }

    constructor (garbage: bool)
      ensures fresh(pipe) && fresh(pipe.nodes) && fresh(currentCommand) && Tracks(Start(garbage)) && mallocCheck
    {
      var headCommand := new PipelineCommand();
      pipe := new PipelineList(headCommand, garbage);
      currentCommand := headCommand;
      argStorePos, commandArgPos, redirectInPos, redirectOutPos, riCheck, roCheck := 0, 0, 0, 0, 0, 0;
      inCheck, outCheck, mallocCheck, doubleRedirectCheck, ampersandPosCheck := false, false, true, false, false;
      new;
      assert Pointers([]) + [Some("&")] == [Some("&")];
    }

    /** The redirect buffers of a command, allocated once and marked. */
    method AllocateRedirects(ghost p: Parse)
      requires Tracks(p)
      modifies this`mallocCheck, currentCommand
      ensures Tracks(p) && !mallocCheck && pipe.nodes == old(pipe.nodes)
    {
      if mallocCheck {
        currentCommand.AllocateRedirects();
        mallocCheck := false;
      }
    }

    method Ampersand(last: bool, ghost p: Parse)
      requires Tracks(p) && !mallocCheck && p.stop == Going
      modifies this, pipe`is_background
      ensures Tracks(Step(p, '&', last)) && mallocCheck == old(mallocCheck)
      ensures pipe.nodes == old(pipe.nodes) && currentCommand == old(currentCommand)
    {
      pipe.is_background := true;
      if !last {
        ampersandPosCheck := true;
      }
    }

    method RedirectIn(ghost p: Parse)
      requires Tracks(p) && !mallocCheck && p.stop == Going
      modifies this
      ensures Tracks(Step(p, '<', false)) && mallocCheck == old(mallocCheck)
      ensures pipe.nodes == old(pipe.nodes) && currentCommand == old(currentCommand)
    {
      hide PipelineList.Current, PipelineCommand.Allocated, MarkerFree;
      StepMarkerFree(p, '<', false);
      inCheck, outCheck := true, false;
      riCheck := riCheck + 1;
      if riCheck > 1 {
        doubleRedirectCheck := true;
      }
    }

    method RedirectOut(ghost p: Parse)
      requires Tracks(p) && !mallocCheck && p.stop == Going
      modifies this
      ensures Tracks(Step(p, '>', false)) && mallocCheck == old(mallocCheck)
      ensures pipe.nodes == old(pipe.nodes) && currentCommand == old(currentCommand)
    {
      hide PipelineList.Current, PipelineCommand.Allocated, MarkerFree;
      StepMarkerFree(p, '>', false);
      outCheck, inCheck := true, false;
      roCheck := roCheck + 1;
      if roCheck > 1 {
        doubleRedirectCheck := true;
      }
    }

    /** A `|`: finishes the current command and goes on with a new one. */
    method Pipe(ghost p: Parse)
      requires Tracks(p) && !mallocCheck && p.stop == Going
      modifies this, pipe`nodes, currentCommand
      ensures Tracks(Step(p, '|', false)) && mallocCheck && Step(p, '|', false).stop == Going
      ensures fresh(currentCommand) && pipe.nodes == old(pipe.nodes) + [currentCommand]
    {
      hide PipelineList.Current, PipelineCommand.Allocated, Close, MarkerFree;
      StepMarkerFree(p, '|', false);
      currentCommand := pipe.Extend(currentCommand, commandArgPos, p);
      mallocCheck := true;
      argStorePos, redirectInPos, redirectOutPos, commandArgPos := 0, 0, 0, 0;
      inCheck, outCheck := false, false;
    }

    /** A space: moves on to a new argument buffer unless the current one is not filled or a
        redirect is being read. */
    method Space(ghost p: Parse)
      requires Tracks(p) && !mallocCheck && p.stop == Going
      modifies this, currentCommand
      ensures Tracks(Step(p, ' ', false)) && mallocCheck == old(mallocCheck)
      ensures pipe.nodes == old(pipe.nodes) && currentCommand == old(currentCommand)
    {
      hide PipelineList.Built, PipelineCommand.Allocated;
      if currentCommand.command_args[commandArgPos].value[0] != '&' && !inCheck && !outCheck {
        commandArgPos := commandArgPos + 1;
        pipe.NextArgument(currentCommand, commandArgPos, p);
        argStorePos := 0;
      }
    }

    /** An ordinary character. */
    method Letter(letter: char, ghost p: Parse)
      requires Tracks(p) && !mallocCheck && p.stop == Going && letter !in "&<>| "
      modifies this, currentCommand
      ensures Tracks(Step(p, letter, false)) && mallocCheck == old(mallocCheck)
      ensures pipe.nodes == old(pipe.nodes) && currentCommand == old(currentCommand)
    {
      hide PipelineList.Current, PipelineCommand.Allocated;
      argStorePos, redirectInPos, redirectOutPos := pipe.Put(
        currentCommand, commandArgPos, inCheck, outCheck, letter, argStorePos, redirectInPos, redirectOutPos, p);
    }

    /** One character. */
    method Next(ch: char, last: bool, ghost p: Parse)
      requires Tracks(p) && p.stop == Going
      modifies this, pipe, currentCommand
      ensures Tracks(Step(p, ch, last)) && mallocCheck == (ch == '|') &&
          (mallocCheck ==> Step(p, ch, last).stop == Going)
      ensures fresh(currentCommand) || currentCommand == old(currentCommand)
      ensures pipe.nodes == old(pipe.nodes) ||
          (fresh(currentCommand) && pipe.nodes == old(pipe.nodes) + [currentCommand])
    {
      hide Tracks, Step;
      LastIgnored(p, ch, last);
      AllocateRedirects(p);
      if ch == '&' {
        Ampersand(last, p);
      } else if ch == '<' {
        RedirectIn(p);
      } else if ch == '>' {
        RedirectOut(p);
      } else if ch == '|' {
        Pipe(p);
      } else if ch == ' ' {
        Space(p);
      } else {
        Letter(ch, p);
      }
    }

    /** What follows the loop: finishes the last command and ends the list. */
    method End(ghost p: Parse)
      requires Tracks(p) && !mallocCheck
      modifies currentCommand
      ensures pipe.nodes == old(pipe.nodes) && pipe.Models(Result(p))
    {
      currentCommand.Terminate(commandArgPos, p);
      currentCommand.next := null;
    }
  }

  /** `pipeline_build` */
  method PipelineBuild(command_line: string, garbage: bool)
    returns (pipe: PipelineList, doubleRedirectCheck: bool, ampersandPosCheck: bool)
    requires '\n' in command_line && Complete(command_line)
    ensures fresh(pipe) && fresh(pipe.nodes) && pipe.Models(Result(ParseLine(command_line, garbage)))
    ensures doubleRedirectCheck == (ParseLine(command_line, garbage).stop == DoubleRedirect)
    ensures ampersandPosCheck == (ParseLine(command_line, garbage).stop == MisplacedAmpersand)
  {
    hide Upto, Step, PipelineList.Current, PipelineCommand.Allocated, PipelineList.Models, Result, MarkerFree;
    var inputPos, inSize := 0, |command_line|;
    var scanner := new Scanner(garbage);
    ghost var p := Start(garbage);
    StartsGoing(command_line, garbage);
    while command_line[inputPos] != '\n' && !scanner.doubleRedirectCheck && !scanner.ampersandPosCheck
      invariant inputPos <= EndOf(command_line) && p == Upto(command_line, inputPos, garbage)
      invariant fresh(scanner) && fresh(scanner.pipe) && fresh(scanner.pipe.nodes) && fresh(scanner.currentCommand)
      invariant scanner.Tracks(p) && (scanner.mallocCheck ==> p.stop == Going)
      invariant scanner.mallocCheck <==> inputPos == 0 || command_line[inputPos - 1] == '|'
      decreases |command_line| - inputPos
    {
      StepOn(command_line, inputPos, garbage);
      scanner.Next(command_line[inputPos], inputPos == inSize - 2, p);
      p := Step(p, command_line[inputPos], inputPos == inSize - 2);
      inputPos := inputPos + 1;
    }
    if p.stop == Going {
      NothingPending(command_line, garbage);
    } else {
      StoppedStays(command_line, inputPos, EndOf(command_line), garbage);
    }
    scanner.End(p);
    return scanner.pipe, scanner.doubleRedirectCheck, scanner.ampersandPosCheck;
  }

  /** The list built from the text of a pipeline holds its commands as heard, which are the
      commands themselves when no word stands after a redirect; no error is raised. */
  method BuildPrinted(p: Pipeline, ls: seq<Layout>, garbage: bool)
    returns (pipe: PipelineList, doubleRedirectCheck: bool, ampersandPosCheck: bool)
    requires Printable(p) && LaidOut(p.commands, ls) && Shows(p, ls)
    ensures !doubleRedirectCheck && !ampersandPosCheck
    ensures pipe.Models(Pipeline(HeardAll(p.commands, ls), p.is_background || garbage))
    ensures (forall k | 0 <= k < |ls| :: !WordAfterRedirect(p.commands[k], ls[k])) ==>
              pipe.Models(p.(is_background := p.is_background || garbage))
  {
    hide Printable, LaidOut, Shows, Complete, ParseLine, Text, PipelineList.Models, HeardAll, WordAfterRedirect;
    ParseHears(p, ls, garbage);
    ParseInvertsPrint(p, ls, garbage);
    pipe, doubleRedirectCheck, ampersandPosCheck := PipelineBuild(Text(p, ls), garbage);
  }
}
