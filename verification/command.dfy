/**
 * The command codec: what the firmware makes of one command line once the
 * JSON deserializer has run over it.
 */
module Command {
  import opened Options
  import opened Bytes

  /**
   * What deserializing one line yields. `Rejected` stands for every
   * deserialization error (bad syntax, empty input, a document too large for
   * the 512-byte pool). `Doc` records the keys the firmware reads: `command`
   * is `None` when the key is absent or not a string (the firmware then holds
   * a null pointer); a numeric field is `None` when the key is absent, and
   * otherwise holds the integer the library converts the value to.
   */
  datatype ParseResult =
    | Rejected
    | Doc(command: Option<string>, imageSize: Option<int>, width: Option<int>,
          height: Option<int>, density: Option<int>)

  /** The JSON deserializer, which the model leaves uninterpreted. */
  type Decoder = seq<byte> -> ParseResult

  /** An accepted `PRINT` command, with absent numeric fields already read as 0. */
  datatype PrintCommand = PrintCommand(imageSize: int, width: int, height: int, density: Option<int>)

  /** The two ways a command line is refused. */
  datatype CommandError = InvalidJson | UnknownCommand

  /**
   * The string a C routine sees through a `const char*`: the characters
   * before the first NUL.
   */
  function CString(s: string): (c: string)
    ensures c <= s
    ensures '\0' !in c
    ensures |c| < |s| ==> s[|c|] == '\0'
  {
    if |s| == 0 || s[0] == '\0' then [] else [s[0]] + CString(s[1..])
  }

  /** The C-string view is the only prefix that is NUL-free and ends at a NUL or at the end. */
  lemma CStringUnique(s: string, p: string)
    requires p <= s && '\0' !in p
    requires |p| == |s| || s[|p|] == '\0'
    ensures CString(s) == p
  {
    var c := CString(s);
    assert c == s[..|c|] && p == s[..|p|];
  }

  /** The firmware's comparison of the command with "PRINT", which reads only up to the first NUL. */
  predicate IsPrint(command: string) {
    CString(command) == "PRINT"
  }

  /**
   * The comparison accepts exactly "PRINT" itself and every string that
   * continues "PRINT" with a NUL character.
   */
  lemma IsPrintIff(command: string)
    ensures IsPrint(command) <==> command == "PRINT" || "PRINT\0" <= command
  {
    var c := CString(command);
    if IsPrint(command) {
      if |c| < |command| {
        assert command[..6] == c + [command[5]];
      } else {
        assert command == c;
      }
    }
    if command == "PRINT" {
      CStringUnique(command, "PRINT");
    } else if "PRINT\0" <= command {
      CStringUnique(command, "PRINT");
    }
  }

  /** The decoded line names a command; otherwise the firmware's `strcmp` is undefined. */
  predicate CommandKnown(parsed: ParseResult) {
    parsed.Doc? ==> parsed.command.Some?
  }

  /**
   * Classifies a decoded line: a deserialization error is invalid JSON, a
   * command string other than "PRINT" is unknown, and "PRINT" is accepted
   * whatever numeric fields are present.
   */
  function Classify(parsed: ParseResult): (r: Result<PrintCommand, CommandError>)
    requires CommandKnown(parsed)
    ensures r == Failure(InvalidJson) <==> parsed.Rejected?
    ensures r == Failure(UnknownCommand) <==> parsed.Doc? && !IsPrint(parsed.command.value)
    ensures r.Success? <==> parsed.Doc? && IsPrint(parsed.command.value)
    ensures r.Success? ==>
      && (parsed.imageSize.Some? ==> r.value.imageSize == parsed.imageSize.value)
      && (parsed.imageSize.None? ==> r.value.imageSize == 0)
      && (parsed.width.Some? ==> r.value.width == parsed.width.value)
      && (parsed.width.None? ==> r.value.width == 0)
      && (parsed.height.Some? ==> r.value.height == parsed.height.value)
      && (parsed.height.None? ==> r.value.height == 0)
      && r.value.density == parsed.density
  {
    match parsed
    case Rejected => Failure(InvalidJson)
    case Doc(command, imageSize, width, height, density) =>
      if IsPrint(command.value) then
        Success(PrintCommand(imageSize.GetOr(0), width.GetOr(0), height.GetOr(0), density))
      else
        Failure(UnknownCommand)
  }
}
