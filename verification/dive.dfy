/** Day 2, piloting the submarine: a course is one command per line, "forward n",
    "down n" or "up n". Without aim, forward moves ahead and down/up change the depth;
    with aim, down/up change the aim and forward also dives by aim times n. */
module Dive {
  import opened Wrappers
  import opened Text

  datatype Command = Forward(n: int) | Down(n: int) | Up(n: int)

  /** Why a line is not a command: the number does not parse as an `i32`, or the word is
      not one of the three commands. */
  datatype CommandError = BadNumber | UnknownCommand

  /** `value.split(" ")` has a second piece, so `split[1]` does not panic. */
  predicate HasArgument(line: string) {
    |Split(line, " ")| >= 2
  }

  /** The command named by `word` with the argument `number`: the number is parsed first
      (as an `i32`), then the word is matched. */
  function ParseCommand(word: string, number: string): (r: Result<Command, CommandError>)
    ensures r.Err? <==> ParseI32(number).Err? || word !in {"forward", "down", "up"}
    ensures r.Err? ==> (r.error == BadNumber <==> ParseI32(number).Err?)
    ensures r.Ok? ==> I32_MIN <= r.value.n <= I32_MAX && r.value.n == ParseI32(number).value
    ensures r.Ok? ==> && (r.value.Forward? <==> word == "forward")
                      && (r.value.Down? <==> word == "down")
                      && (r.value.Up? <==> word == "up")
  {
    match ParseI32(number)
    case Err(_) => Err(BadNumber)
    case Ok(n) =>
      if word == "forward" then Ok(Forward(n))
      else if word == "down" then Ok(Down(n))
      else if word == "up" then Ok(Up(n))
      else Err(UnknownCommand)
  }

  /** `Command::try_from`: the first two pieces of the line split at single spaces are the
      word and the number; pieces after the second are ignored. */
  function TryFrom(line: string): Result<Command, CommandError>
    requires HasArgument(line)
  {
    var split := Split(line, " ");
    ParseCommand(split[0], split[1])
  }

  // ----- printing a command, the inverse of parsing it --------------------------------

  function Word(c: Command): string {
    match c
    case Forward(_) => "forward"
    case Down(_) => "down"
    case Up(_) => "up"
  }

  /** The line that describes `c`: its word, one space, its number. */
  function Render(c: Command): string {
    Word(c) + " " + ShowInt(c.n)
  }

  /** Every command reads back from the line that describes it. */
  lemma CommandRoundTrip(c: Command)
    requires I32_MIN <= c.n <= I32_MAX
    ensures HasArgument(Render(c)) && TryFrom(Render(c)) == Ok(c)
  {
    SplitAround(Word(c), ShowInt(c.n), " ");
    ParseShowInt(c.n);
  }

  // ----- the two folds ----------------------------------------------------------------

  datatype Position = Position(x: int, depth: int)

  datatype PositionWithAim = PositionWithAim(x: int, depth: int, aim: int)

  /** The lines from `i` on can be parsed one by one up to the first bad one without a
      panic: each line reached has a second piece. */
  predicate NoPanicFrom(lines: seq<string>, i: nat)
    requires i <= |lines|
    decreases |lines| - i
  {
    i == |lines| || (HasArgument(lines[i]) && (TryFrom(lines[i]).Ok? ==> NoPanicFrom(lines, i + 1)))
  }

  /** Every line from `i` on is a command. */
  predicate AllCommands(lines: seq<string>, i: nat)
    requires i <= |lines|
  {
    forall k :: i <= k < |lines| ==> HasArgument(lines[k]) && TryFrom(lines[k]).Ok?
  }

  function Commands(lines: seq<string>): (cmds: seq<Command>)
    requires AllCommands(lines, 0)
    ensures |cmds| == |lines|
    ensures forall k :: 0 <= k < |lines| ==> Ok(cmds[k]) == TryFrom(lines[k])
  {
    seq(|lines|, k requires 0 <= k < |lines| && AllCommands(lines, 0) => TryFrom(lines[k]).value)
  }

  // Reference sums over a list of commands, each defined on the list without its last
  // command.

  function TotalForward(cmds: seq<Command>): int
    decreases |cmds|
  {
    if |cmds| == 0 then 0
    else TotalForward(cmds[..|cmds| - 1]) + (if cmds[|cmds| - 1].Forward? then cmds[|cmds| - 1].n else 0)
  }

  function TotalDown(cmds: seq<Command>): int
    decreases |cmds|
  {
    if |cmds| == 0 then 0
    else TotalDown(cmds[..|cmds| - 1]) + (if cmds[|cmds| - 1].Down? then cmds[|cmds| - 1].n else 0)
  }

  function TotalUp(cmds: seq<Command>): int
    decreases |cmds|
  {
    if |cmds| == 0 then 0
    else TotalUp(cmds[..|cmds| - 1]) + (if cmds[|cmds| - 1].Up? then cmds[|cmds| - 1].n else 0)
  }

  /** The aim after `cmds`. */
  function Aim(cmds: seq<Command>): int {
    TotalDown(cmds) - TotalUp(cmds)
  }

  /** With aim, every forward k dives by k times the aim in force when it is read. */
  function AimedDepth(cmds: seq<Command>): int
    decreases |cmds|
  {
    if |cmds| == 0 then 0
    else
      var init, last := cmds[..|cmds| - 1], cmds[|cmds| - 1];
      AimedDepth(init) + (if last.Forward? then Aim(init) * last.n else 0)
  }

  /** One command of `parse_and_sum`'s fold. */
  function Move(p: Position, c: Command): Position {
    match c
    case Forward(x) => p.(x := p.x + x)
    case Up(y) => p.(depth := p.depth - y)
    case Down(y) => p.(depth := p.depth + y)
  }

  /** One command of `parse_with_aim`'s fold. */
  function MoveAim(p: PositionWithAim, c: Command): PositionWithAim {
    match c
    case Forward(x) => p.(x := p.x + x, depth := p.depth + p.aim * x)
    case Up(y) => p.(aim := p.aim - y)
    case Down(y) => p.(aim := p.aim + y)
  }

  /** `try_fold` of `parse_and_sum` from line `i` on. */
  function SumFrom(lines: seq<string>, i: nat, acc: Position): Result<Position, CommandError>
    requires i <= |lines| && NoPanicFrom(lines, i)
    decreases |lines| - i
  {
    if i == |lines| then Ok(acc)
    else
      match TryFrom(lines[i])
      case Err(e) => Err(e)
      case Ok(c) => SumFrom(lines, i + 1, Move(acc, c))
  }

  /** `try_fold` of `parse_with_aim` from line `i` on. */
  function AimFrom(lines: seq<string>, i: nat, acc: PositionWithAim): Result<PositionWithAim, CommandError>
    requires i <= |lines| && NoPanicFrom(lines, i)
    decreases |lines| - i
  {
    if i == |lines| then Ok(acc)
    else
      match TryFrom(lines[i])
      case Err(e) => Err(e)
      case Ok(c) => AimFrom(lines, i + 1, MoveAim(acc, c))
  }

  /** `parse_and_sum`. */
  function ParseAndSum(data: string): Result<Position, CommandError>
    requires NoPanicFrom(Lines(data), 0)
  {
    SumFrom(Lines(data), 0, Position(0, 0))
  }

  /** `parse_with_aim`. */
  function ParseWithAim(data: string): Result<PositionWithAim, CommandError>
    requires NoPanicFrom(Lines(data), 0)
  {
    AimFrom(Lines(data), 0, PositionWithAim(0, 0, 0))
  }

  /** The first failing line fails the fold. */
  lemma {:induction false} FoldsFailTogether(lines: seq<string>, i: nat, p: Position, q: PositionWithAim)
    requires i <= |lines| && NoPanicFrom(lines, i)
    ensures SumFrom(lines, i, p).Ok? <==> AllCommands(lines, i)
    ensures AimFrom(lines, i, q).Ok? <==> AllCommands(lines, i)
    ensures SumFrom(lines, i, p).Err? ==> AimFrom(lines, i, q).Err? && SumFrom(lines, i, p).error == AimFrom(lines, i, q).error
    decreases |lines| - i
  {
    if i < |lines| && TryFrom(lines[i]).Ok? {
      var c := TryFrom(lines[i]).value;
      FoldsFailTogether(lines, i + 1, Move(p, c), MoveAim(q, c));
    }
  }

  /** `cmds` are the commands the lines from `i` on describe. */
  predicate Describes(lines: seq<string>, i: nat, cmds: seq<Command>) {
    && |cmds| == |lines| && i <= |lines|
    && forall k :: i <= k < |lines| ==> HasArgument(lines[k]) && TryFrom(lines[k]) == Ok(cmds[k])
  }

  /** The position `parse_and_sum` reaches after `cmds`, in closed form. */
  function Totals(cmds: seq<Command>): Position {
    Position(TotalForward(cmds), TotalDown(cmds) - TotalUp(cmds))
  }

  /** The position `parse_with_aim` reaches after `cmds`, in closed form. */
  function AimTotals(cmds: seq<Command>): PositionWithAim {
    PositionWithAim(TotalForward(cmds), AimedDepth(cmds), Aim(cmds))
  }

  /** Without aim the fold ends at the total forward distance and at depth total down
      minus total up. */
  lemma {:induction false} SumFromTotals(lines: seq<string>, i: nat, cmds: seq<Command>)
    requires Describes(lines, i, cmds) && NoPanicFrom(lines, i)
    ensures var pre := cmds[..i];
            SumFrom(lines, i, Totals(pre))
              == Ok(Totals(cmds))
    decreases |lines| - i
  {
    if i == |lines| {
      assert cmds[..i] == cmds;
    } else {
      var pre := cmds[..i];
      var acc := Totals(pre);
      assert SumFrom(lines, i, acc) == SumFrom(lines, i + 1, Move(acc, cmds[i]));
      PrefixStep(cmds, i);
      SumFromTotals(lines, i + 1, cmds);
    }
  }

  /** With aim the fold ends at the same forward distance, at aim total down minus total
      up, and at the depth where every forward dived by the aim in force. */
  lemma {:induction false} AimFromTotals(lines: seq<string>, i: nat, cmds: seq<Command>)
    requires Describes(lines, i, cmds) && NoPanicFrom(lines, i)
    ensures var pre := cmds[..i];
            AimFrom(lines, i, AimTotals(pre))
              == Ok(AimTotals(cmds))
    decreases |lines| - i
  {
    if i == |lines| {
      assert cmds[..i] == cmds;
    } else {
      var pre := cmds[..i];
      var acc := AimTotals(pre);
      assert AimFrom(lines, i, acc) == AimFrom(lines, i + 1, MoveAim(acc, cmds[i]));
      PrefixStep(cmds, i);
      AimFromTotals(lines, i + 1, cmds);
    }
  }

  /** Each reference sum of a one-longer prefix is one command more than the previous. */
  lemma PrefixStep(cmds: seq<Command>, i: nat)
    requires i < |cmds|
    ensures var pre, c := cmds[..i], cmds[i];
            && Move(Totals(pre), c)
                 == Totals(cmds[..i + 1])
            && MoveAim(AimTotals(pre), c)
                 == AimTotals(cmds[..i + 1])
  {
    var pre' := cmds[..i + 1];
    assert pre'[..i] == cmds[..i] && pre'[i] == cmds[i];
  }

  /** Both folds succeed exactly when every line is a command, fail with the same error
      otherwise, and end at the same forward distance. */
  lemma ParseCourse(data: string)
    requires NoPanicFrom(Lines(data), 0)
    ensures var lines := Lines(data);
            && (ParseAndSum(data).Ok? <==> AllCommands(lines, 0))
            && (ParseWithAim(data).Ok? <==> AllCommands(lines, 0))
            && (ParseAndSum(data).Err? ==> ParseWithAim(data).Err? && ParseAndSum(data).error == ParseWithAim(data).error)
            && (AllCommands(lines, 0) ==>
                  var cmds := Commands(lines);
                  && ParseAndSum(data) == Ok(Totals(cmds))
                  && ParseWithAim(data) == Ok(AimTotals(cmds)))
  {
    var lines := Lines(data);
    FoldsFailTogether(lines, 0, Position(0, 0), PositionWithAim(0, 0, 0));
    if AllCommands(lines, 0) {
      var cmds := Commands(lines);
      assert cmds[..0] == [];
      SumFromTotals(lines, 0, cmds);
      AimFromTotals(lines, 0, cmds);
    }
  }

  /** The worked course ends 15 forward and 10 deep without aim (product 150), and 15
      forward and 60 deep with aim 10 (product 900). */
  lemma SampleCourse()
    ensures var cmds := [Forward(5), Down(5), Forward(8), Up(3), Down(8), Forward(2)];
            && Totals(cmds) == Position(15, 10)
            && AimTotals(cmds) == PositionWithAim(15, 60, 10)
  {
    var c1 := [Forward(5)];
    var c2 := c1 + [Down(5)];
    var c3 := c2 + [Forward(8)];
    var c4 := c3 + [Up(3)];
    var c5 := c4 + [Down(8)];
    var c6 := c5 + [Forward(2)];
    assert c1[..0] == [] && c2[..1] == c1 && c3[..2] == c2 && c4[..3] == c3 && c5[..4] == c4 && c6[..5] == c5;
    assert Totals(c1) == Position(5, 0) && AimTotals(c1) == PositionWithAim(5, 0, 0);
    assert Totals(c2) == Position(5, 5) && AimTotals(c2) == PositionWithAim(5, 0, 5);
    assert Totals(c3) == Position(13, 5) && AimTotals(c3) == PositionWithAim(13, 40, 5);
    assert Totals(c4) == Position(13, 2) && AimTotals(c4) == PositionWithAim(13, 40, 2);
    assert Totals(c5) == Position(13, 10) && AimTotals(c5) == PositionWithAim(13, 40, 10);
    assert c6 == [Forward(5), Down(5), Forward(8), Up(3), Down(8), Forward(2)];
  }
}
