/** The parser of myshell_parser.c as a machine over characters, and a printer of pipelines. */
module ParserModel {
  import opened Common

  datatype Command = Command(args: seq<string>, input: Option<string>, output: Option<string>)

  datatype Pipeline = Pipeline(commands: seq<Command>, is_background: bool)

  // ---------------------------------------------------------------- the machine

  datatype Mode = Words | In | Out

  datatype Stop = Going | DoubleRedirect | MisplacedAmpersand

  /** `args` are the finished words of the command being read and `word` the unfinished one; an
      empty string is a buffer that still holds its '&' marker. `ins` and `outs` count the
      redirects of the whole line. */
  datatype Parse = Parse(
    done: seq<Command>, args: seq<string>, word: string, input: string, output: string,
    mode: Mode, ins: nat, outs: nat, background: bool, stop: Stop)

  function Start(background: bool): Parse {
    Parse([], [], "", "", "", Words, 0, 0, background, Going)
  }

  function Collected(p: Parse): seq<string> {
    if p.word == "" then p.args else p.args + [p.word]
  }

  function Path(s: string): Option<string> {
    if s == "" then None else Some(s)
  }

  function Close(p: Parse): Command {
    Command(Collected(p), Path(p.input), Path(p.output))
  }

  /** `characterInsert` */
  function Insert(p: Parse, ch: char): Parse {
    match p.mode
    case In => p.(input := p.input + [ch])
    case Out => p.(output := p.output + [ch])
    case Words => p.(word := p.word + [ch])
  }

  /** One character; `last` says that it is the last but one of the string. */
  function Step(p: Parse, ch: char, last: bool): Parse {
    if p.stop != Going then p
    else if ch == '&' then p.(background := true, stop := if last then Going else MisplacedAmpersand)
    else if ch == '<' then p.(mode := In, ins := p.ins + 1, stop := if p.ins + 1 > 1 then DoubleRedirect else Going)
    else if ch == '>' then p.(mode := Out, outs := p.outs + 1, stop := if p.outs + 1 > 1 then DoubleRedirect else Going)
    else if ch == '|' then
        p.(done := p.done + [Close(p)], args := [], word := "", input := "", output := "", mode := Words)
    else if ch == ' ' then (if p.word != "" && p.mode == Words then p.(args := p.args + [p.word], word := "") else p)
    else Insert(p, ch)
  }

  /** The characters of `s` one after the other, the first of them at position `k` of a string of
      length `size`. */
  function Feed(p: Parse, s: string, k: nat, size: nat): Parse {
    if s == "" then p else Step(Feed(p, s[..|s| - 1], k, size), s[|s| - 1], k + |s| - 1 == size - 2)
  }

  /** Where the first newline is. */
  function EndOf(line: string): (n: nat)
    requires '\n' in line
    ensures n < |line| && line[n] == '\n' && forall k | 0 <= k < n :: line[k] != '\n'
  {
    if line[0] == '\n' then 0 else 1 + EndOf(line[1..])
  }

  /** The machine after the first `n` characters of a line. */
  function Upto(line: string, n: nat, background: bool): Parse
    requires n <= |line|
  {
    Feed(Start(background), line[..n], 0, |line|)
  }

  function ParseLine(line: string, background: bool): Parse
    requires '\n' in line
  {
    Upto(line, EndOf(line), background)
  }

  function Result(p: Parse): Pipeline {
    Pipeline(p.done + [Close(p)], p.background)
  }

  /** The line gives its last command something to parse: it is not empty and does not end in a
      '|' that the parser gets to. */
  predicate Complete(line: string)
    requires '\n' in line
  {
    var n := EndOf(line);
    n > 0 && (line[n - 1] == '|' ==> Upto(line, n - 1, false).stop != Going)
  }

  // ---------------------------------------------------------------- the printer

  /** Where the words of a command stand, how many spaces go where, and which redirect comes
      first: `early` words before the redirects, those up to `mid` between them and the rest after
      them. A gap follows an early word and precedes any other. */
  datatype Layout = Layout(
    early: nat, mid: nat, gaps: seq<nat>, lead: nat, trail: nat,
    outFirst: bool, inLead: nat, inTail: nat, outLead: nat, outTail: nat)

  function Spaces(n: nat): string {
    if n == 0 then "" else Spaces(n - 1) + " "
  }

  /** The first `n` words, each followed by its gap. */
  function WordsText(args: seq<string>, gaps: seq<nat>, n: nat): string
    requires n <= |args| == |gaps|
  {
    if n == 0 then "" else WordsText(args, gaps, n - 1) + args[n - 1] + Spaces(gaps[n - 1])
  }

  /** The words from `from` to `to`, each preceded by its gap. */
  function LaterText(args: seq<string>, gaps: seq<nat>, from: nat, to: nat): string
    requires from <= to <= |args| == |gaps|
  {
    if to == from then "" else LaterText(args, gaps, from, to - 1) + (Spaces(gaps[to - 1]) + args[to - 1])
  }

  function RedirectText(sign: char, path: Option<string>, lead: nat, tail: nat): string {
    if path.None? then "" else [sign] + Spaces(lead) + path.value + Spaces(tail)
  }

  /** Words of one command need a space between them, and one before them after a redirect;
      everything else may stand without. */
  predicate Fits(c: Command, l: Layout) {
    && |l.gaps| == |c.args| && l.early <= l.mid <= |c.args|
    && (forall k | 0 <= k < l.early - 1 :: l.gaps[k] >= 1)
    && (forall k | l.early <= k < |c.args| :: l.gaps[k] >= 1)
  }

  /** The redirect that comes first in the text, and the one that comes second. */
  function FirstText(c: Command, l: Layout): string {
    if l.outFirst then RedirectText('>', c.output, l.outLead, l.outTail)
        else RedirectText('<', c.input, l.inLead, l.inTail)
  }

  function SecondText(c: Command, l: Layout): string {
    if l.outFirst then RedirectText('<', c.input, l.inLead, l.inTail)
        else RedirectText('>', c.output, l.outLead, l.outTail)
  }

  function CommandText(c: Command, l: Layout): string
    requires Fits(c, l)
  {
    Spaces(l.lead) + WordsText(c.args, l.gaps, l.early)
    + (FirstText(c, l) + LaterText(c.args, l.gaps, l.early, l.mid))
    + (SecondText(c, l) + LaterText(c.args, l.gaps, l.mid, |c.args|))
    + Spaces(l.trail)
  }

  predicate LaidOut(cs: seq<Command>, ls: seq<Layout>) {
    |cs| == |ls| && forall k | 0 <= k < |cs| :: Fits(cs[k], ls[k])
  }

  function CommandsText(cs: seq<Command>, ls: seq<Layout>, n: nat): string
    requires LaidOut(cs, ls) && n <= |cs|
  {
    if n == 0 then ""
    else (if n == 1 then "" else CommandsText(cs, ls, n - 1) + "|") + CommandText(cs[n - 1], ls[n - 1])
  }

  function Text(p: Pipeline, ls: seq<Layout>): string
    requires LaidOut(p.commands, ls)
  {
    CommandsText(p.commands, ls, |ls|) + (if p.is_background then "&" else "") + "\n"
  }

  // ---------------------------------------------------------------- what is heard

  function Joined(ws: seq<string>): string {
    if ws == [] then "" else Joined(ws[..|ws| - 1]) + ws[|ws| - 1]
  }

  /** A word stands somewhere after a redirect of its command. */
  predicate WordAfterRedirect(c: Command, l: Layout) {
    var first, second := if l.outFirst then c.output else c.input, if l.outFirst then c.input else c.output;
    (first.Some? && l.early < |c.args|) || (second.Some? && l.mid < |c.args|)
  }

  /** What the parser makes of a command: a word after a redirect is joined to the path before it. */
  function Heard(c: Command, l: Layout): Command
    requires Fits(c, l)
  {
    var early, middle, late := c.args[..l.early], c.args[l.early..l.mid], c.args[l.mid..];
    var first, second := if l.outFirst then c.output else c.input, if l.outFirst then c.input else c.output;
    var args := early + (if first.None? then middle + (if second.None? then late else []) else []);
    var first' := if first.None? then first
        else Some(first.value + Joined(middle) + if second.None? then Joined(late) else "");
    var second' := if second.None? then second else Some(second.value + Joined(late));
    if l.outFirst then Command(args, second', first') else Command(args, first', second')
  }

  /** The words of a command are its arguments, and it is heard as it is, exactly when no word
      stands after a redirect. */
  lemma HeardAsIs(c: Command, l: Layout)
    requires Fits(c, l)
    ensures Heard(c, l).args == c.args <==> !WordAfterRedirect(c, l)
    ensures Heard(c, l) == c <==> !WordAfterRedirect(c, l)
  {
    var early, middle, late := c.args[..l.early], c.args[l.early..l.mid], c.args[l.mid..];
    assert c.args == early + (middle + late) && early + (middle + []) == early + middle && early + [] == early;
    assert Joined([]) == "" && forall s: string :: s + "" == s;
    if !WordAfterRedirect(c, l) {
      assert l.early == |c.args| ==> middle == [] && late == [];
      assert l.mid == |c.args| ==> late == [] && middle + [] == middle;
    }
  }

  function HeardAll(cs: seq<Command>, ls: seq<Layout>): (hs: seq<Command>)
    requires LaidOut(cs, ls)
    ensures |hs| == |cs|
  {
    seq(|cs|, k requires 0 <= k < |cs| => Heard(cs[k], ls[k]))
  }

  predicate Plain(s: string) {
    s != "" && forall k | 0 <= k < |s| :: s[k] !in "&<>| \n"
  }

  /** Words and paths are not empty and hold no special character; there may be none. */
  predicate Sound(c: Command) {
    && (forall k | 0 <= k < |c.args| :: Plain(c.args[k]))
    && (c.input.Some? ==> Plain(c.input.value)) && (c.output.Some? ==> Plain(c.output.value))
  }

  function Count(cs: seq<Command>, n: nat, input: bool): nat
    requires n <= |cs|
  {
    if n == 0 then 0
    else Count(cs, n - 1, input) + if (if input then cs[n - 1].input else cs[n - 1].output).Some? then 1 else 0
  }

  /** At most one '<' and one '>' on the whole line. */
  predicate Printable(p: Pipeline) {
    && |p.commands| >= 1 && (forall k | 0 <= k < |p.commands| :: Sound(p.commands[k]))
    && Count(p.commands, |p.commands|, true) <= 1 && Count(p.commands, |p.commands|, false) <= 1
  }

  /** The line shows something after its last '|', and is not empty if it has none. */
  predicate Shows(p: Pipeline, ls: seq<Layout>)
    requires LaidOut(p.commands, ls)
  {
    p.is_background || (|ls| > 0 && CommandText(p.commands[|ls| - 1], ls[|ls| - 1]) != "")
  }

  // ---------------------------------------------------------------- feeding pieces

  lemma {:induction false} FeedJoin(p: Parse, a: string, b: string, k: nat, size: nat)
    ensures Feed(p, a + b, k, size) == Feed(Feed(p, a, k, size), b, k + |a|, size)
  {
    if b == "" {
      assert a + b == a;
    } else {
      FeedJoin(p, a, b[..|b| - 1], k, size);
      assert (a + b)[..|a + b| - 1] == a + b[..|b| - 1];
    }
  }

  lemma NothingFed(p: Parse, k: nat, size: nat)
    ensures Feed(p, "", k, size) == p
  {}

  lemma FeedOne(p: Parse, ch: char, k: nat, size: nat)
    ensures Feed(p, [ch], k, size) == Step(p, ch, k == size - 2)
  {
    assert [ch][..0] == "";
    assert Feed(p, "", k, size) == p;
  }

  lemma SpaceTwice(p: Parse, last: bool)
    requires p.stop == Going
    ensures Step(p, ' ', last) == Step(p, ' ', false) && Step(Step(p, ' ', false), ' ', last) == Step(p, ' ', false)
  {}

  lemma {:induction false} FeedSpaces(p: Parse, n: nat, k: nat, size: nat)
    requires p.stop == Going
    ensures Feed(p, Spaces(n), k, size) == if n > 0 then Step(p, ' ', false) else p
  {
    hide Feed, Step;
    if n == 0 {
      NothingFed(p, k, size);
    } else {
      FeedSpaces(p, n - 1, k, size);
      FeedJoin(p, Spaces(n - 1), " ", k, size);
      FeedOne(Feed(p, Spaces(n - 1), k, size), ' ', k + |Spaces(n - 1)|, size);
      SpaceTwice(p, k + |Spaces(n - 1)| == size - 2);
    }
  }

  lemma {:induction false} FeedPlain(p: Parse, s: string, k: nat, size: nat)
    requires p.stop == Going && forall j | 0 <= j < |s| :: s[j] !in "&<>| \n"
    ensures Feed(p, s, k, size) ==
      match p.mode
      case In => p.(input := p.input + s)
      case Out => p.(output := p.output + s)
      case Words => p.(word := p.word + s)
  {
    if s != "" {
      FeedPlain(p, s[..|s| - 1], k, size);
      assert s == s[..|s| - 1] + [s[|s| - 1]];
    }
  }

  /** A machine about to read a command. */
  predicate AtStart(p: Parse) {
    p.args == [] && p.word == "" && p.input == "" && p.output == "" && p.mode == Words && p.stop == Going
  }

  /** A word, finished if a space follows it. */
  lemma FeedWord(p: Parse, w: string, gap: nat, k: nat, size: nat)
    requires p.stop == Going && p.mode == Words && p.word == "" && Plain(w)
    ensures Feed(p, w + Spaces(gap), k, size) == if gap >= 1 then p.(args := p.args + [w]) else p.(word := w)
  {
    hide Feed, Spaces;
    FeedJoin(p, w, Spaces(gap), k, size);
    FeedPlain(p, w, k, size);
    assert "" + w == w;
    FeedSpaces(p.(word := w), gap, k + |w|, size);
  }

  /** After `n` words exactly those are collected, and the last is finished if a space followed. */
  lemma {:induction false} FeedWords(p: Parse, args: seq<string>, gaps: seq<nat>, n: nat, k: nat, size: nat)
    requires AtStart(p) && n <= |args| == |gaps|
    requires forall j | 0 <= j < |args| :: Plain(args[j])
    requires forall j | 0 <= j < n - 1 :: gaps[j] >= 1
    ensures var q := Feed(p, WordsText(args, gaps, n), k, size);
            && q == p.(args := q.args, word := q.word) && Collected(q) == args[..n]
            && (n == 0 || gaps[n - 1] >= 1 ==> q.word == "")
  {
    hide Spaces, Step;
    if n == 0 {
      NothingFed(p, k, size);
    } else {
      hide Feed;
      FeedWords(p, args, gaps, n - 1, k, size);
      var before, w, gap := WordsText(args, gaps, n - 1), args[n - 1], Spaces(gaps[n - 1]);
      assert before + w + gap == before + (w + gap);
      FeedJoin(p, before, w + gap, k, size);
      assert Plain(w) && args[..n] == args[..n - 1] + [w];
      FeedWord(Feed(p, before, k, size), w, gaps[n - 1], k + |before|, size);
    }
  }

  /** A redirect fills its path; spaces before and after the path change nothing. */
  lemma FeedRedirect(p: Parse, sign: char, path: string, lead: nat, tail: nat, k: nat, size: nat)
    requires p.stop == Going && Plain(path)
    requires (sign == '<' && p.ins == 0 && p.input == "") || (sign == '>' && p.outs == 0 && p.output == "")
    ensures Feed(p, RedirectText(sign, Some(path), lead, tail), k, size) ==
      if sign == '<' then p.(mode := In, ins := 1, input := path) else p.(mode := Out, outs := 1, output := path)
  {
    hide Feed, Spaces, Plain;
    var a, b := [sign], Spaces(lead);
    var q := if sign == '<' then p.(mode := In, ins := 1) else p.(mode := Out, outs := 1);
    FeedOne(p, sign, k, size);
    FeedJoin(p, a, b, k, size);
    FeedSpaces(q, lead, k + |a|, size);
    FeedJoin(p, a + b, path, k, size);
    PathFed(q, path, k + |a + b|, size);
    FeedJoin(p, a + b + path, Spaces(tail), k, size);
    FeedSpaces(if sign == '<' then q.(input := path) else q.(output := path), tail, k + |a + b + path|, size);
  }

  lemma PathFed(p: Parse, path: string, k: nat, size: nat)
    requires p.stop == Going && Plain(path) && ((p.mode == In && p.input == "") || (p.mode == Out && p.output == ""))
    ensures Feed(p, path, k, size) == if p.mode == In then p.(input := path) else p.(output := path)
  {
    hide Feed;
    FeedPlain(p, path, k, size);
    assert "" + path == path;
  }

  /** What reading leaves of a word that follows a space: an argument outside a redirect, more of
      the path inside one, since spaces do not end a path. */
  predicate Hears(p: Parse, q: Parse, ws: seq<string>) {
    && q == p.(args := q.args, word := q.word, input := q.input, output := q.output)
    && match p.mode
       case Words => Collected(q) == Collected(p) + ws && q.input == p.input && q.output == p.output
       case In => q == p.(input := p.input + Joined(ws))
       case Out => q == p.(output := p.output + Joined(ws))
  }

  lemma FeedLaterWord(p: Parse, gap: nat, word: string, k: nat, size: nat)
    requires p.stop == Going && gap >= 1 && Plain(word)
    ensures Hears(p, Feed(p, Spaces(gap) + word, k, size), [word])
  {
    hide Feed, Spaces;
    FeedJoin(p, Spaces(gap), word, k, size);
    FeedSpaces(p, gap, k, size);
    FeedPlain(Step(p, ' ', false), word, k + |Spaces(gap)|, size);
    assert Joined([word]) == word && "" + word == word;
  }

  lemma HearsMore(p: Parse, q: Parse, r: Parse, ws: seq<string>, w: string)
    requires Hears(p, q, ws) && Hears(q, r, [w])
    ensures Hears(p, r, ws + [w])
  {
    if p.mode == Words {
      hide Joined;
      assert Collected(p) + ws + [w] == Collected(p) + (ws + [w]);
    } else {
      JoinedMore(ws, w);
      PathMore(p, q, r, Joined(ws), w, Joined(ws + [w]));
    }
  }

  lemma JoinedMore(ws: seq<string>, w: string)
    ensures Joined(ws + [w]) == Joined(ws) + w && Joined([w]) == w
  {
    assert (ws + [w])[..|ws|] == ws && [w][..0] == [];
  }

  lemma PathMore(p: Parse, q: Parse, r: Parse, a: string, b: string, ab: string)
    requires p.mode != Words && ab == a + b
    requires q == if p.mode == In then p.(input := p.input + a) else p.(output := p.output + a)
    requires r == if q.mode == In then q.(input := q.input + b) else q.(output := q.output + b)
    ensures r == if p.mode == In then p.(input := p.input + ab) else p.(output := p.output + ab)
  {
    assert p.input + a + b == p.input + (a + b) && p.output + a + b == p.output + (a + b);
  }

  lemma {:induction false} FeedLater(p: Parse, args: seq<string>, gaps: seq<nat>, from: nat, to: nat, k: nat, size: nat)
    requires p.stop == Going && from <= to <= |args| == |gaps|
    requires forall j | 0 <= j < |args| :: Plain(args[j])
    requires forall j | from <= j < to :: gaps[j] >= 1
    ensures Hears(p, Feed(p, LaterText(args, gaps, from, to), k, size), args[from..to])
  {
    hide Spaces, Feed, Plain, Step;
    if to == from {
      NothingFed(p, k, size);
    } else {
      hide Hears;
      FeedLater(p, args, gaps, from, to - 1, k, size);
      var before, w := LaterText(args, gaps, from, to - 1), args[to - 1];
      FeedJoin(p, before, Spaces(gaps[to - 1]) + w, k, size);
      var q := Feed(p, before, k, size);
      HearsGoing(p, q, args[from..to - 1]);
      FeedLaterWord(q, gaps[to - 1], w, k + |before|, size);
      HearsMore(p, q, Feed(q, Spaces(gaps[to - 1]) + w, k + |before|, size), args[from..to - 1], w);
      assert args[from..to] == args[from..to - 1] + [w];
    }
  }

  lemma HearsGoing(p: Parse, q: Parse, ws: seq<string>)
    requires Hears(p, q, ws)
    ensures q.stop == p.stop
  {}

  /** A redirect, if there is one, and the words after it. */
  lemma FeedPart(p: Parse, sign: char, path: Option<string>, lead: nat, tail: nat,
      args: seq<string>, gaps: seq<nat>, from: nat, to: nat, k: nat, size: nat)
    requires p.stop == Going && (path.Some? ==> Plain(path.value)) && from <= to <= |args| == |gaps|
    requires (sign == '<' && (path.Some? ==> p.ins == 0) && p.input == "") ||
        (sign == '>' && (path.Some? ==> p.outs == 0) && p.output == "")
    requires forall j | 0 <= j < |args| :: Plain(args[j])
    requires forall j | from <= j < to :: gaps[j] >= 1
    ensures Hears(Redirected(p, sign, path),
                  Feed(p, RedirectText(sign, path, lead, tail) + LaterText(args, gaps, from, to), k, size),
                      args[from..to])
  {
    hide Feed, Plain, Hears, RedirectText, LaterText;
    var r := RedirectText(sign, path, lead, tail);
    FeedJoin(p, r, LaterText(args, gaps, from, to), k, size);
    FeedOptional(p, sign, path, lead, tail, k, size);
    FeedLater(Redirected(p, sign, path), args, gaps, from, to, k + |r|, size);
  }

  /** The machine after a redirect and its path. */
  function Redirected(p: Parse, sign: char, path: Option<string>): Parse {
    if path.None? then p
    else if sign == '<' then p.(mode := In, ins := 1, input := path.value)
    else p.(mode := Out, outs := 1, output := path.value)
  }

  lemma FeedOptional(p: Parse, sign: char, path: Option<string>, lead: nat, tail: nat, k: nat, size: nat)
    requires p.stop == Going && (path.Some? ==> Plain(path.value))
    requires (sign == '<' && (path.Some? ==> p.ins == 0) && p.input == "") ||
        (sign == '>' && (path.Some? ==> p.outs == 0) && p.output == "")
    ensures Feed(p, RedirectText(sign, path, lead, tail), k, size) == Redirected(p, sign, path)
  {
    if path.Some? {
      FeedRedirect(p, sign, path.value, lead, tail, k, size);
    } else {
      NothingFed(p, k, size);
    }
  }

  /** The words before the redirects. */
  lemma FeedHead(p: Parse, c: Command, l: Layout, k: nat, size: nat)
    requires AtStart(p) && Sound(c) && Fits(c, l)
    ensures var q := Feed(p, Spaces(l.lead) + WordsText(c.args, l.gaps, l.early), k, size);
            q == p.(args := q.args, word := q.word) && Collected(q) == c.args[..l.early]
  {
    hide Feed, Step, WordsText, Spaces;
    var s, w := Spaces(l.lead), WordsText(c.args, l.gaps, l.early);
    FeedSpaces(p, l.lead, k, size);
    IdleSpace(p);
    FeedJoin(p, s, w, k, size);
    FeedWords(p, c.args, l.gaps, l.early, k + |s|, size);
  }

  /** The first redirect and the words after it, then the second and the words after that. */
  lemma FeedTail(p: Parse, c: Command, l: Layout, k: nat, size: nat) returns (q: Parse)
    requires p.stop == Going && p.mode == Words && p.input == "" && p.output == "" && Sound(c) && Fits(c, l)
    requires Collected(p) == c.args[..l.early]
    requires (c.input.Some? ==> p.ins == 0) && (c.output.Some? ==> p.outs == 0)
    ensures q == Feed(p, FirstText(c, l) + LaterText(c.args, l.gaps, l.early, l.mid)
                         + (SecondText(c, l) + LaterText(c.args, l.gaps, l.mid, |c.args|)), k, size)
    ensures Close(q) == Heard(c, l) && q.stop == Going && q.done == p.done && q.background == p.background
    ensures q.ins == p.ins + (if c.input.Some? then 1 else 0) && q.outs == p.outs + (if c.output.Some? then 1 else 0)
  {
    hide Feed, Step, LaterText, RedirectText, Plain, Joined;
    var a := FirstText(c, l) + LaterText(c.args, l.gaps, l.early, l.mid);
    var b := SecondText(c, l) + LaterText(c.args, l.gaps, l.mid, |c.args|);
    FeedJoin(p, a, b, k, size);
    var m := Feed(p, a, k, size);
    assert c.args[l.mid..|c.args|] == c.args[l.mid..];
    q := Feed(m, b, k + |a|, size);
    if l.outFirst {
      FeedPart(p, '>', c.output, l.outLead, l.outTail, c.args, l.gaps, l.early, l.mid, k, size);
      FeedPart(m, '<', c.input, l.inLead, l.inTail, c.args, l.gaps, l.mid, |c.args|, k + |a|, size);
      TailHeard(p, m, q, '>', '<', c, l);
    } else {
      FeedPart(p, '<', c.input, l.inLead, l.inTail, c.args, l.gaps, l.early, l.mid, k, size);
      FeedPart(m, '>', c.output, l.outLead, l.outTail, c.args, l.gaps, l.mid, |c.args|, k + |a|, size);
      TailHeard(p, m, q, '<', '>', c, l);
    }
  }

  function PathOf(c: Command, sign: char): Option<string> {
    if sign == '<' then c.input else c.output
  }

  lemma TailHeard(p: Parse, m: Parse, q: Parse, first: char, second: char, c: Command, l: Layout)
    requires p.stop == Going && p.mode == Words && p.input == "" && p.output == "" && Sound(c) && Fits(c, l)
    requires Collected(p) == c.args[..l.early]
    requires (c.input.Some? ==> p.ins == 0) && (c.output.Some? ==> p.outs == 0)
    requires if l.outFirst then first == '>' && second == '<' else first == '<' && second == '>'
    requires Hears(Redirected(p, first, PathOf(c, first)), m, c.args[l.early..l.mid])
    requires Hears(Redirected(m, second, PathOf(c, second)), q, c.args[l.mid..])
    ensures Close(q) == Heard(c, l) && q.stop == Going && q.done == p.done && q.background == p.background
    ensures q.ins == p.ins + (if c.input.Some? then 1 else 0) && q.outs == p.outs + (if c.output.Some? then 1 else 0)
  {
    hide Joined;
    var early, middle, late := c.args[..l.early], c.args[l.early..l.mid], c.args[l.mid..];
    assert early + middle + late == early + (middle + late) && early + [] == early && middle + [] == middle;
    assert forall s: string :: s + "" == s;
  }

  /** One command, from a machine at a start: closing it then gives the command as heard. */
  lemma FeedCommand(p: Parse, c: Command, l: Layout, k: nat, size: nat)
    requires AtStart(p) && Sound(c) && Fits(c, l)
    requires (c.input.Some? ==> p.ins == 0) && (c.output.Some? ==> p.outs == 0)
    ensures var q := Feed(p, CommandText(c, l), k, size);
            && Close(q) == Heard(c, l) && q.stop == Going && q.done == p.done && q.background == p.background
            && q.ins == p.ins + (if c.input.Some? then 1 else 0) && q.outs == p.outs + (if c.output.Some? then 1 else 0)
  {
    hide Feed, Step, WordsText, LaterText, FirstText, SecondText, Spaces, Heard, Sound;
    var h, e := Spaces(l.lead) + WordsText(c.args, l.gaps, l.early), Spaces(l.trail);
    var a := FirstText(c, l) + LaterText(c.args, l.gaps, l.early, l.mid);
    var b := SecondText(c, l) + LaterText(c.args, l.gaps, l.mid, |c.args|);
    assert CommandText(c, l) == h + (a + b) + e;
    FeedHead(p, c, l, k, size);
    FeedJoin(p, h, a + b, k, size);
    var q := FeedTail(Feed(p, h, k, size), c, l, k + |h|, size);
    FeedJoin(p, h + (a + b), e, k, size);
    FeedSpaces(q, l.trail, k + |h + (a + b)|, size);
    SpaceKeepsClose(q);
  }

  lemma SpaceKeepsClose(p: Parse)
    requires p.stop == Going
    ensures var q := Step(p, ' ', false); Close(q) == Close(p) && q == p.(args := q.args, word := q.word)
  {}

  lemma IdleSpace(p: Parse)
    requires AtStart(p)
    ensures Step(p, ' ', false) == p
  {}

  // ---------------------------------------------------------------- parsing inverts printing

  lemma {:induction false} CountGrows(cs: seq<Command>, n: nat, m: nat, input: bool)
    requires n <= m <= |cs|
    ensures Count(cs, n, input) <= Count(cs, m, input)
  {
    if n < m {
      CountGrows(cs, n, m - 1, input);
    }
  }

  /** After the text of `n` commands, the first `n - 1` are done and the last is there to close. */
  lemma {:induction false} FeedCommands(p: Pipeline, ls: seq<Layout>, background: bool, n: nat, size: nat)
    requires Printable(p) && LaidOut(p.commands, ls) && 1 <= n <= |ls|
    ensures var q := Feed(Start(background), CommandsText(p.commands, ls, n), 0, size);
            && q.stop == Going && q.done + [Close(q)] == HeardAll(p.commands, ls)[..n] && q.background == background
            && q.ins == Count(p.commands, n, true) && q.outs == Count(p.commands, n, false)
  {
    hide Feed, Step, CommandText, Close, Sound, Heard;
    var c, heard := p.commands[n - 1], HeardAll(p.commands, ls);
    CountGrows(p.commands, n, |ls|, true);
    CountGrows(p.commands, n, |ls|, false);
    assert heard[..n] == heard[..n - 1] + [Heard(c, ls[n - 1])];
    if n == 1 {
      assert CommandsText(p.commands, ls, 1) == CommandText(c, ls[0]);
      FeedCommand(Start(background), c, ls[0], 0, size);
    } else {
      FeedCommands(p, ls, background, n - 1, size);
      var before := CommandsText(p.commands, ls, n - 1);
      FeedNext(Start(background), before, c, ls[n - 1], size);
      assert before + ("|" + CommandText(c, ls[n - 1])) == before + "|" + CommandText(c, ls[n - 1]);
    }
  }

  /** A '|' and one more command. */
  lemma FeedNext(p: Parse, before: string, c: Command, l: Layout, size: nat)
    requires Sound(c) && Fits(c, l) && Feed(p, before, 0, size).stop == Going
    requires (c.input.Some? ==> Feed(p, before, 0, size).ins == 0) &&
        (c.output.Some? ==> Feed(p, before, 0, size).outs == 0)
    ensures var q, r := Feed(p, before, 0, size), Feed(p, before + ("|" + CommandText(c, l)), 0, size);
            && Close(r) == Heard(c, l) && r.stop == Going && r.done == q.done + [Close(q)] &&
                  r.background == q.background
            && r.ins == q.ins + (if c.input.Some? then 1 else 0) && r.outs == q.outs + (if c.output.Some? then 1 else 0)
  {
    hide Feed, Step, CommandText, Close, Sound, Fits, Heard;
    var q, k := Feed(p, before, 0, size), |before|;
    NextCommand(q);
    FeedJoin(p, before, "|" + CommandText(c, l), 0, size);
    FeedJoin(q, "|", CommandText(c, l), k, size);
    FeedOne(q, '|', k, size);
    FeedCommand(Step(q, '|', false), c, l, k + 1, size);
  }

  lemma NextCommand(p: Parse)
    requires p.stop == Going
    ensures forall last :: Step(p, '|', last) == Step(p, '|', false)
    ensures var q := Step(p, '|', false);
            AtStart(q) && q.done == p.done + [Close(p)] && q.ins == p.ins && q.outs == p.outs &&
                q.background == p.background
  {}

  lemma {:induction false} NoNewline(cs: seq<Command>, ls: seq<Layout>, n: nat)
    requires LaidOut(cs, ls) && (forall k | 0 <= k < |cs| :: Sound(cs[k])) && n <= |cs|
    ensures '\n' !in CommandsText(cs, ls, n)
  {
    hide CommandText, Fits, Sound;
    if n > 0 {
      NoNewline(cs, ls, n - 1);
      CommandNoNewline(cs[n - 1], ls[n - 1]);
    }
  }

  lemma EndsInCommand(cs: seq<Command>, ls: seq<Layout>, n: nat)
    requires LaidOut(cs, ls) && (forall k | 0 <= k < |cs| :: Sound(cs[k])) && 0 < n <= |cs|
    requires CommandText(cs[n - 1], ls[n - 1]) != ""
    ensures var t := CommandsText(cs, ls, n); t != "" && t[|t| - 1] != '|'
  {
    hide CommandText, Fits, Sound;
    CommandNoNewline(cs[n - 1], ls[n - 1]);
    var before, t := if n == 1 then "" else CommandsText(cs, ls, n - 1) + "|", CommandText(cs[n - 1], ls[n - 1]);
    assert t[|t| - 1] in t && (before + t)[|before + t| - 1] == t[|t| - 1];
  }

  lemma CommandNoNewline(c: Command, l: Layout)
    requires Fits(c, l) && Sound(c)
    ensures forall ch | ch in CommandText(c, l) :: ch != '\n' && ch != '|'
  {
    hide Spaces, WordsText, LaterText, RedirectText;
    SpacesAre(l.lead);
    SpacesAre(l.trail);
    WordsNoNewline(c.args, l.gaps, l.early);
    LaterNoNewline(c.args, l.gaps, l.early, l.mid);
    LaterNoNewline(c.args, l.gaps, l.mid, |c.args|);
    RedirectNoNewline('<', c.input, l.inLead, l.inTail);
    RedirectNoNewline('>', c.output, l.outLead, l.outTail);
  }

  lemma {:induction false} SpacesAre(n: nat)
    ensures forall ch | ch in Spaces(n) :: ch == ' '
  {
    if n > 0 {
      SpacesAre(n - 1);
    }
  }

  lemma {:induction false} WordsNoNewline(args: seq<string>, after: seq<nat>, n: nat)
    requires n <= |args| == |after| && forall j | 0 <= j < |args| :: Plain(args[j])
    ensures forall ch | ch in WordsText(args, after, n) :: ch != '\n' && ch != '|'
    ensures n > 0 ==> WordsText(args, after, n) != ""
  {
    if n > 0 {
      WordsNoNewline(args, after, n - 1);
      SpacesAre(after[n - 1]);
      assert Plain(args[n - 1]);
    }
  }

  lemma {:induction false} LaterNoNewline(args: seq<string>, gaps: seq<nat>, from: nat, to: nat)
    requires from <= to <= |args| == |gaps| && forall j | 0 <= j < |args| :: Plain(args[j])
    ensures forall ch | ch in LaterText(args, gaps, from, to) :: ch != '\n' && ch != '|'
    ensures to > from ==> LaterText(args, gaps, from, to) != ""
  {
    if to > from {
      LaterNoNewline(args, gaps, from, to - 1);
      SpacesAre(gaps[to - 1]);
      assert Plain(args[to - 1]);
    }
  }

  lemma RedirectNoNewline(sign: char, path: Option<string>, lead: nat, tail: nat)
    requires (path.Some? ==> Plain(path.value)) && sign != '\n' && sign != '|'
    ensures forall ch | ch in RedirectText(sign, path, lead, tail) :: ch != '\n' && ch != '|'
  {
    SpacesAre(lead);
    SpacesAre(tail);
  }

  /** Parsing the text of a pipeline, however it is laid out, gives the commands as heard and
      raises no error; without a '&' the background flag keeps the value it happened to have. */
  lemma ParseHears(p: Pipeline, ls: seq<Layout>, background: bool)
    requires Printable(p) && LaidOut(p.commands, ls) && Shows(p, ls)
    ensures var line := Text(p, ls);
            && '\n' in line && Complete(line)
            && ParseLine(line, background).stop == Going
            && Result(ParseLine(line, background)) == Pipeline(HeardAll(p.commands, ls), p.is_background || background)
  {
    hide Feed, CommandsText, CommandText, Sound, Fits, Heard;
    var body, line := CommandsText(p.commands, ls, |ls|), Text(p, ls);
    var size := |line|;
    NoNewline(p.commands, ls, |ls|);
    if !p.is_background {
      EndsInCommand(p.commands, ls, |ls|);
    }
    FeedCommands(p, ls, background, |ls|, size);
    var q := Feed(Start(background), body, 0, size);
    assert HeardAll(p.commands, ls)[..|ls|] == HeardAll(p.commands, ls);
    assert line[|line| - 1] == '\n' && EndOf(line) == |line| - 1;
    if p.is_background {
      assert line[..|line| - 1] == body + "&";
      FeedJoin(Start(background), body, "&", 0, size);
      FeedOne(q, '&', |body|, size);
    } else {
      assert line[..|line| - 1] == body;
    }
  }

  /** The words of every command come back as its arguments, and the pipeline comes back as it was,
      exactly when no command has a word after a redirect. */
  lemma ParseInvertsPrint(p: Pipeline, ls: seq<Layout>, background: bool)
    requires Printable(p) && LaidOut(p.commands, ls) && Shows(p, ls)
    ensures var line := Text(p, ls);
            && '\n' in line && Complete(line) && ParseLine(line, background).stop == Going
            && var r, plain := Result(ParseLine(line, background)), forall k | 0 <= k < |ls| ::
                  !WordAfterRedirect(p.commands[k], ls[k]);
               && |r.commands| == |p.commands|
               && ((forall k | 0 <= k < |ls| :: r.commands[k].args == p.commands[k].args) <==> plain)
               && (r == p.(is_background := p.is_background || background) <==> plain)
  {
    hide Text, Complete, ParseLine, Heard, Printable, Fits, Shows, WordAfterRedirect;
    ParseHears(p, ls, background);
    forall k | 0 <= k < |ls|
      ensures Heard(p.commands[k], ls[k]).args == p.commands[k].args <==> !WordAfterRedirect(p.commands[k], ls[k])
      ensures Heard(p.commands[k], ls[k]) == p.commands[k] <==> !WordAfterRedirect(p.commands[k], ls[k])
    {
      HeardAsIs(p.commands[k], ls[k]);
    }
    var r := Result(ParseLine(Text(p, ls), background));
    assert forall k | 0 <= k < |ls| :: r.commands[k] == Heard(p.commands[k], ls[k]);
    if forall k | 0 <= k < |ls| :: !WordAfterRedirect(p.commands[k], ls[k]) {
      assert r.commands == p.commands;
    }
  }

  /** In `cat < in out` the second word is not an argument: the input path becomes `inout`. */
  lemma SecondWordIsLost(background: bool)
    ensures var line := "cat < in out\n";
            && Complete(line) && ParseLine(line, background).stop == Going
            && Result(ParseLine(line, background)) == Pipeline([Command(["cat"], Some("inout"), None)], background)
  {
    hide Feed, Step, Close, Complete, ParseLine, Text, Printable, Shows, Heard, Fits;
    var c, l := Command(["cat", "out"], Some("in"), None), Layout(1, 2, [1, 1], 0, 0, false, 1, 0, 0, 0);
    LineOfExample(c, l);
    ParseHears(Pipeline([c], false), [l], background);
    HeardExample(c, l);
    assert HeardAll([c], [l]) == [Heard(c, l)];
  }

  lemma LineOfExample(c: Command, l: Layout)
    requires c == Command(["cat", "out"], Some("in"), None) && l == Layout(1, 2, [1, 1], 0, 0, false, 1, 0, 0, 0)
    ensures var p := Pipeline([c], false);
            Printable(p) && LaidOut([c], [l]) && Shows(p, [l]) && Text(p, [l]) == "cat < in out\n"
  {
    TextOfExample(c, l);
    assert Sound(c) && Count([c], 0, true) == Count([c], 0, false) == 0;
    hide CommandText;
    assert CommandsText([c], [l], 1) == CommandText(c, l);
  }

  lemma TextOfExample(c: Command, l: Layout)
    requires c == Command(["cat", "out"], Some("in"), None) && l == Layout(1, 2, [1, 1], 0, 0, false, 1, 0, 0, 0)
    ensures Fits(c, l) && CommandText(c, l) == "cat < in out"
  {
    assert Spaces(0) == "" && Spaces(1) == " ";
    assert WordsText(c.args, l.gaps, 0) == "" && WordsText(c.args, l.gaps, 1) == "cat ";
    assert LaterText(c.args, l.gaps, 1, 1) == "" && LaterText(c.args, l.gaps, 1, 2) == " out";
    assert LaterText(c.args, l.gaps, 2, 2) == "";
    assert FirstText(c, l) == "< in" && SecondText(c, l) == "";
  }

  lemma HeardExample(c: Command, l: Layout)
    requires c == Command(["cat", "out"], Some("in"), None) && l == Layout(1, 2, [1, 1], 0, 0, false, 1, 0, 0, 0)
    ensures Fits(c, l) && Heard(c, l) == Command(["cat"], Some("inout"), None)
  {
    assert c.args[..1] == ["cat"] && c.args[1..2] == ["out"] && c.args[2..] == [];
    assert Joined([]) == "" && ["out"][..0] == [] && Joined(["out"]) == "out";
    assert "in" + "out" + "" == "inout" && ["cat"] + [] == ["cat"];
  }

  // ---------------------------------------------------------------- exactly when the flags go up

  predicate Misplaced(line: string, n: nat) {
    n < |line| && line[n] == '&' && n != |line| - 2
  }

  predicate Repeated(line: string, n: nat) {
    n < |line| && (line[n] == '<' || line[n] == '>') && line[n] in line[..n]
  }

  predicate Clean(line: string, n: nat) {
    forall m: nat | m < n :: !Misplaced(line, m) && !Repeated(line, m)
  }

  lemma StepOn(line: string, n: nat, background: bool)
    requires n < |line|
    ensures Upto(line, n + 1, background) == Step(Upto(line, n, background), line[n], n == |line| - 2)
  {
    assert line[..n + 1][..n] == line[..n];
  }

  lemma StartsGoing(line: string, background: bool)
    ensures Upto(line, 0, background) == Start(background) && MarkerFree(Start(background))
  {}

  /** The parser goes on as long as there was no offence, and has counted what it read. */
  lemma {:induction false} GoesOnWhileClean(line: string, n: nat, background: bool)
    requires n <= |line|
    ensures var p := Upto(line, n, background);
            && (p.stop == Going <==> Clean(line, n))
            && (p.stop == Going ==>
                p.ins == (if '<' in line[..n] then 1 else 0) && p.outs == (if '>' in line[..n] then 1 else 0))
            && (p.stop == Going ==> p.background == (background || '&' in line[..n]))
  {
    hide Upto, Close, Insert;
    if n == 0 {
      StartsGoing(line, background);
    } else {
      GoesOnWhileClean(line, n - 1, background);
      StepOn(line, n - 1, background);
      assert line[..n] == line[..n - 1] + [line[n - 1]];
      assert Clean(line, n) <==> Clean(line, n - 1) && !Misplaced(line, n - 1) && !Repeated(line, n - 1);
      InsertCounts(Upto(line, n - 1, background), line[n - 1]);
    }
  }

  lemma InsertCounts(p: Parse, ch: char)
    ensures var q := Insert(p, ch);
        q.stop == p.stop && q.ins == p.ins && q.outs == p.outs && q.background == p.background
  {}

  /** The parser stops at the first '&' that is not the last but one character, or at the first
      '<' or '>' that is not the first of its kind, whichever comes first, and nowhere else. */
  lemma {:induction false} StopsAtFirstOffence(line: string, n: nat, background: bool)
    requires n <= |line|
    ensures var p := Upto(line, n, background);
            && (p.stop == Going <==> Clean(line, n))
            && (p.stop == MisplacedAmpersand <==> exists m: nat | m < n :: Misplaced(line, m) && Clean(line, m))
            && (p.stop == DoubleRedirect <==> exists m: nat | m < n :: Repeated(line, m) && Clean(line, m))
            && (p.stop == Going ==> p.background == (background || '&' in line[..n]))
  {
    hide Upto, Close, Insert, Clean;
    GoesOnWhileClean(line, n, background);
    if n == 0 {
      StartsGoing(line, background);
    } else {
      StopsAtFirstOffence(line, n - 1, background);
      GoesOnWhileClean(line, n - 1, background);
      StepOn(line, n - 1, background);
      InsertCounts(Upto(line, n - 1, background), line[n - 1]);
    }
  }

  // ---------------------------------------------------------------- the marker

  predicate Unmarked(s: string) {
    s == "" || s[0] != '&'
  }

  /** No buffer with something in it starts with the marker. */
  predicate MarkerFree(p: Parse) {
    Unmarked(p.word) && Unmarked(p.input) && Unmarked(p.output)
  }

  lemma StepMarkerFree(p: Parse, ch: char, last: bool)
    requires MarkerFree(p)
    ensures MarkerFree(Step(p, ch, last))
  {}

  /** Once stopped, the rest of the line changes nothing. */
  lemma {:induction false} StoppedStays(line: string, n: nat, m: nat, background: bool)
    requires n <= m <= |line| && Upto(line, n, background).stop != Going
    ensures Upto(line, m, background) == Upto(line, n, background)
  {
    hide Upto;
    if n < m {
      StoppedStays(line, n, m - 1, background);
      StepOn(line, m - 1, background);
    }
  }

  /** An offence at position `m`, the first of the line, ends the parse with the commands read up to
      there, the last of them as far as it was read. */
  lemma OffenceEndsParse(line: string, m: nat, background: bool)
    requires '\n' in line && m < EndOf(line) && Clean(line, m) && (Misplaced(line, m) || Repeated(line, m))
    ensures var before, r := Result(Upto(line, m, background)), Result(ParseLine(line, background));
            && ParseLine(line, background).stop == (if line[m] == '&' then MisplacedAmpersand else DoubleRedirect)
            && r.commands == before.commands
            && r.is_background == (background || '&' in line[..m + 1])
  {
    hide Upto, Clean;
    GoesOnWhileClean(line, m, background);
    StepOn(line, m, background);
    assert line[..m + 1] == line[..m] + [line[m]];
    assert (Repeated(line, m) && line[m] == '<') ==> '<' in line[..m];
    StoppedStays(line, m + 1, EndOf(line), background);
  }

  /** Where the parser stops does not depend on the background flag. */
  lemma {:induction false} StopIgnoresBackground(line: string, n: nat, b: bool, c: bool)
    requires n <= |line|
    ensures Upto(line, n, b).stop == Upto(line, n, c).stop
  {
    StopsAtFirstOffence(line, n, b);
    StopsAtFirstOffence(line, n, c);
  }

  /** When the parser gets to the end of a complete line it is not just after a '|'. */
  lemma NothingPending(line: string, background: bool)
    requires '\n' in line && Complete(line) && ParseLine(line, background).stop == Going
    ensures EndOf(line) > 0 && line[EndOf(line) - 1] != '|'
  {
    hide Upto;
    var n := EndOf(line);
    if line[n - 1] == '|' {
      StopIgnoresBackground(line, n - 1, false, background);
      StoppedStays(line, n - 1, n, background);
    }
  }

  /** Only a '&' looks at whether it is the last but one character. */
  lemma LastIgnored(p: Parse, ch: char, last: bool)
    ensures ch != '&' ==> Step(p, ch, last) == Step(p, ch, false)
  {}
}
