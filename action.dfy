/**
  What happens after the alarm (main.cpp:537-541, 690-698): `--open` names a
  file to open, `--cmd` a console command to run. The program keeps both in
  one string and marks a command with the prefix "[CMD]"; here the choice is
  a tagged value, and `StoreAsWritten`/`DispatchAsWritten` model the string.
 */
module Action {

  const CMD_TAG: string := "[CMD]"

  /** The action the options ask for; the last of `--open` and `--cmd` given wins. */
  datatype PostAction = NoPost | Open(path: string) | Cmd(command: string)

  /** What is done when a countdown ends. */
  datatype Effect = Nothing | OpenFile(path: string) | RunCommand(command: string)

  /** The intended dispatch: a file is opened, a command is run. */
  function Dispatch(post: PostAction): (e: Effect)
    ensures post.Cmd? ==> e == RunCommand(post.command)
    ensures post.Open? && post.path != [] ==> e == OpenFile(post.path)
    ensures post.NoPost? ==> e == Nothing
  {
    match post
    case NoPost => Nothing
    case Open(path) => if path == [] then Nothing else OpenFile(path)
    case Cmd(command) => RunCommand(command)
  }

  predicate HasTag(s: string) {
    |s| >= |CMD_TAG| && s[..|CMD_TAG|] == CMD_TAG
  }

  /** The `openFile` string the program stores for an action (main.cpp:537, 539-541). */
  function StoreAsWritten(post: PostAction): (s: string)
    ensures post.Cmd? ==> HasTag(s) && s[|CMD_TAG|..] == post.command
    ensures post.Open? ==> s == post.path
    ensures post.NoPost? ==> s == []
  {
    match post
    case NoPost => []
    case Open(path) => path
    case Cmd(command) =>
      var s := CMD_TAG + command;
      assert s[..|CMD_TAG|] == CMD_TAG && s[|CMD_TAG|..] == command;
      s
  }

  /** The dispatch of main.cpp:690-698 on the stored string. */
  function DispatchAsWritten(openFile: string): (e: Effect)
    ensures openFile == [] <==> e == Nothing
    ensures HasTag(openFile) ==> e == RunCommand(openFile[|CMD_TAG|..])
    ensures openFile != [] && !HasTag(openFile) ==> e == OpenFile(openFile)
  {
    if openFile == [] then Nothing
    else if HasTag(openFile) then RunCommand(openFile[|CMD_TAG|..])
    else OpenFile(openFile)
  }

  /** The string encoding is faithful for every action but a file whose name starts with the tag. */
  lemma AsWrittenAgrees(post: PostAction)
    requires !(post.Open? && HasTag(post.path))
    ensures DispatchAsWritten(StoreAsWritten(post)) == Dispatch(post)
  {
  }

  /** The discrepancy: `--open "[CMD]x"` runs the command `x` instead of opening the file. */
  lemma AsWrittenRunsTaggedFile(x: string)
    ensures DispatchAsWritten(StoreAsWritten(Open(CMD_TAG + x))) == RunCommand(x)
    ensures Dispatch(Open(CMD_TAG + x)) == OpenFile(CMD_TAG + x)
  {
    var s := CMD_TAG + x;
    assert s[..|CMD_TAG|] == CMD_TAG && s[|CMD_TAG|..] == x;
  }
}
