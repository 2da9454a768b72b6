/** The argument vector of the containment helper: written by the parent, read back by the helper.

    Models wrapCommand and parseHelperInvocation of internal/contain/contain_linux.go, for a 64-bit int. */
module Argv {
  import opened Decimal
  import opened Wrappers

  const HELPER_FLAG := "--radioactive-ralph-contain-exec"

  datatype Invocation = Invocation(root: string, extra: seq<string>, command: seq<string>)

  /** Panics: the bounds check overflowed and the slice expression is out of range. */
  datatype Parsed = NotHelper | Helper(invocation: Invocation) | Panics

  /** argv as the helper sees it: its own path, then what wrapCommand returned. */
  function Wrap(self: string, i: Invocation): seq<string> {
    [self, HELPER_FLAG, i.root, Itoa(|i.extra|)] + i.extra + i.command
  }

  /** A sum that wraps around as int64 does. */
  function Wrapped(x: int): int {
    if x > MAX_INT then x - 2 * (MAX_INT + 1) else x
  }

  function Parse(argv: seq<string>): Parsed {
    if |argv| < 5 || argv[1] != HELPER_FLAG then NotHelper
    else
      var count := Atoi(argv[3]);
      if count.None? || count.value < 0 || |argv| < Wrapped(4 + count.value + 1) then NotHelper
      else if 4 + count.value > |argv| then Panics
      else
        var command := argv[4 + count.value..];
        if |command| == 0 then NotHelper else Helper(Invocation(argv[2], argv[4..4 + count.value], command))
  }

  /** Whatever the paths and arguments look like, the helper recovers root, extras and command. */
  lemma ParseInvertsWrap(self: string, i: Invocation)
    requires i.command != [] && |i.extra| + 5 <= MAX_INT
    ensures Parse(Wrap(self, i)) == Helper(i)
  {
    var argv := Wrap(self, i);
    AtoiOfItoa(|i.extra|);
    assert argv[4..4 + |i.extra|] == i.extra;
    assert argv[4 + |i.extra|..] == i.command;
  }

  /** Two commands that are wrapped alike are the same command. */
  lemma WrapIsInjective(self: string, i: Invocation, j: Invocation)
    requires i.command != [] && |i.extra| + 5 <= MAX_INT
    requires j.command != [] && |j.extra| + 5 <= MAX_INT
    requires Wrap(self, i) == Wrap(self, j)
    ensures i == j
  {
    ParseInvertsWrap(self, i);
    ParseInvertsWrap(self, j);
  }

  /** Nothing else is taken for a helper invocation: an accepted argv is a wrapped one, up to how its
      count is spelled. */
  lemma ParsedIsWrapped(argv: seq<string>)
    requires Parse(argv).Helper?
    ensures var i := Parse(argv).invocation;
            && i.command != []
            && Atoi(argv[3]) == Some(|i.extra|)
            && argv == [argv[0], HELPER_FLAG, i.root, argv[3]] + i.extra + i.command
  {}

  /** And every argv of that shape is accepted, however its count is spelled. */
  lemma WrappedIsParsed(argv: seq<string>, i: Invocation)
    requires i.command != [] && |argv| >= 4 && Atoi(argv[3]) == Some(|i.extra|) && |i.extra| + 5 <= MAX_INT
    requires argv == [argv[0], HELPER_FLAG, i.root, argv[3]] + i.extra + i.command
    ensures Parse(argv) == Helper(i)
  {
    assert argv[4..4 + |i.extra|] == i.extra;
    assert argv[4 + |i.extra|..] == i.command;
  }

  lemma WrappedIsInt64(x: int)
    requires 0 <= x <= 2 * MAX_INT + 1
    ensures MIN_INT <= Wrapped(x) <= MAX_INT && (Wrapped(x) == x || x - Wrapped(x) == 0x1_0000_0000_0000_0000)
  {}

  /** The check on the count fails to guard the slice exactly for the five largest counts. */
  lemma ParsePanicsWhen(argv: seq<string>)
    requires |argv| <= MAX_INT - 5
    ensures Parse(argv).Panics? <==>
              |argv| >= 5 && argv[1] == HELPER_FLAG && Atoi(argv[3]).Some? && Atoi(argv[3]).value > MAX_INT - 5
  {}
}
