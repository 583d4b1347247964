/**
 * src/CliInput.h: the declared command-line arguments of the encode and decode
 * tools, their one-line brief and multi-line summary, and the resolution of a
 * tokenised command line against the declarations.
 *
 * Tokenising the command line with regular expressions is not part of this
 * model: Parse receives the name -> text map the tokeniser builds. The stoi /
 * stof conversions are not modelled either; a numeric argument keeps the text
 * that would be converted.
 */
module CliInputs {
  import opened Wrappers

  datatype ArgumentType = Integer | Float | String | Boolean

  /** InputArgument: one declared argument. */
  datatype InputArgument = InputArgument(
    name: string, argType: ArgumentType, defaultValue: string, description: string, required: bool)

  /** The union of ArgumentValue; numbers keep their unconverted text. */
  datatype Payload = AsInteger(text: string) | AsFloat(text: string) | AsString(text: string) | AsBoolean(flag: bool)

  /** ArgumentValue: the type tag and the payload. */
  datatype ArgumentValue = ArgumentValue(argType: ArgumentType, value: Payload)

  // ------------------------------------------------------------ resolution

  /** A required argument the command line does not supply. */
  predicate Missing(a: InputArgument, args: map<string, string>)
  {
    a.required && a.name !in args
  }

  /** The i-th declaration is the first required one the command line lacks. */
  predicate FirstMissing(arguments: seq<InputArgument>, args: map<string, string>, i: int)
  {
    0 <= i < |arguments| && Missing(arguments[i], args) &&
    forall j :: 0 <= j < i ==> !Missing(arguments[j], args)
  }

  /** The text an argument resolves to: the supplied one, else its default. */
  function SuppliedText(a: InputArgument, args: map<string, string>): (s: string)
    ensures a.name in args ==> s == args[a.name]
    ensures a.name !in args ==> s == a.defaultValue
  {
    if a.name in args then args[a.name] else a.defaultValue
  }

  /**
   * The value parse stores for a: tagged with a's type; a Boolean is true
   * exactly when its text is "true" (regex_match of the whole text against
   * "true"); every other type carries the resolved text.
   */
  function Resolve(a: InputArgument, args: map<string, string>): (v: ArgumentValue)
    ensures v.argType == a.argType
    ensures a.argType == Boolean ==> v.value == AsBoolean(SuppliedText(a, args) == "true")
    ensures a.argType == Integer ==> v.value == AsInteger(SuppliedText(a, args))
    ensures a.argType == Float ==> v.value == AsFloat(SuppliedText(a, args))
    ensures a.argType == String ==> v.value == AsString(SuppliedText(a, args))
  {
    var text := SuppliedText(a, args);
    var value := match a.argType
      case Integer => AsInteger(text)
      case Float => AsFloat(text)
      case Boolean => AsBoolean(text == "true")
      case String => AsString(text);
    ArgumentValue(a.argType, value)
  }

  /** The text of the thrown string. */
  function RequiredMessage(name: string): string
  {
    "Input: argument '" + name + "' required"
  }

  /** The names declared among the first n arguments. */
  function Names(arguments: seq<InputArgument>, n: nat): set<string>
    requires n <= |arguments|
  {
    set j | 0 <= j < n :: arguments[j].name
  }

  /** No argument among the first n declared after the i-th one has its name. */
  predicate LastOfName(arguments: seq<InputArgument>, n: nat, i: nat)
    requires i < n <= |arguments|
  {
    forall j :: i < j < n ==> arguments[j].name != arguments[i].name
  }

  // --------------------------------------------------------------- brief

  /** std::setw on right-aligned output: s, preceded by spaces up to width. */
  function PadLeft(s: string, width: int): (t: string)
    ensures |t| == if width > |s| then width else |s|
  {
    if width > |s| then Spaces(width - |s|) + s else s
  }

  /** std::left with std::setw: s, followed by spaces up to width. */
  function PadRight(s: string, width: int): (t: string)
    ensures |t| == if width > |s| then width else |s|
  {
    if width > |s| then s + Spaces(width - |s|) else s
  }

  function Spaces(n: nat): (s: string)
    ensures |s| == n
  {
    seq(n, _ => ' ')
  }

  /** A pending setw applies to the next piece written, and only to it. */
  function Put(s: string, pad: bool, padding: int): string
  {
    if pad then PadLeft(s, padding) else s
  }

  function Suffix(t: ArgumentType): string
  {
    match t
    case String => "=<string>"
    case Integer => "=<number>"
    case Float => "=<number>"
    case Boolean => ""
  }

  /** One argument of the brief, unpadded: [--name=<...>] when optional, --name=<...> when required. */
  function Token(a: InputArgument): (t: string)
    ensures !a.required ==> t == "[--" + a.name + Suffix(a.argType) + "]"
    ensures a.required ==> t == "--" + a.name + Suffix(a.argType)
  {
    (if a.required then "" else "[") + "--" + a.name + Suffix(a.argType) + (if a.required then "" else "]")
  }

  /** One argument as brief writes it, its first piece padded when a line break came before it. */
  function Item(a: InputArgument, pad: bool, padding: int): string
  {
    if a.required then Put("--", pad, padding) + a.name + Suffix(a.argType)
    else Put("[", pad, padding) + "--" + a.name + Suffix(a.argType) + "]"
  }

  /** The pieces brief writes before the name: "[" and "--", or "--" alone. */
  function Opening(a: InputArgument, pad: bool, padding: int): string
  {
    if a.required then Put("--", pad, padding) else Put("[", pad, padding) + "--"
  }

  lemma ItemPieces(a: InputArgument, pad: bool, padding: int)
    ensures Item(a, pad, padding) == Opening(a, pad, padding) + a.name + Suffix(a.argType) + (if a.required then "" else "]")
  {
  }

  /** Concatenation regroups: text written piece by piece is the text of the pieces. */
  lemma Regroup3(s: string, a: string, b: string, c: string)
    ensures s + a + b + c == s + (a + b + c)
  {
  }

  lemma Regroup(s: string, a: string, b: string, c: string, d: string)
    ensures s + a + b + c + d == s + (a + b + c + d)
  {
  }

  lemma Regroup5(s: string, a: string, b: string, c: string, d: string, e: string)
    ensures s + a + b + c + d + e == s + (a + b + c + d + e)
  {
  }

  /** An unpadded item is the token. */
  lemma ItemUnpadded(a: InputArgument, padding: int)
    ensures Item(a, false, padding) == Token(a)
  {
  }

  /**
   * The first n arguments of the brief: each item followed by a line break
   * when its 1-based position is a multiple of perLine, else by a space; the
   * item after a line break has its first piece padded to padding.
   */
  function BriefLines(arguments: seq<InputArgument>, n: nat, padding: int, perLine: int): string
    requires n <= |arguments| && perLine != 0
  {
    if n == 0 then ""
    else
      BriefLines(arguments, n - 1, padding, perLine)
      + Item(arguments[n - 1], n - 1 > 0 && (n - 1) % perLine == 0, padding)
      + (if n % perLine == 0 then "\n" else " ")
  }

  /** Extending the brief by one argument: its item, then its separator. */
  lemma BriefLinesNext(arguments: seq<InputArgument>, k: nat, padding: int, perLine: int)
    requires k < |arguments| && perLine != 0
    ensures BriefLines(arguments, k + 1, padding, perLine)
         == BriefLines(arguments, k, padding, perLine) + Item(arguments[k], k > 0 && k % perLine == 0, padding)
            + (if (k + 1) % perLine == 0 then "\n" else " ")
  {
  }

  /** The number of occurrences of ch in s. */
  function Count(s: string, ch: char): nat
  {
    if |s| == 0 then 0 else Count(s[..|s| - 1], ch) + (if s[|s| - 1] == ch then 1 else 0)
  }

  lemma {:induction false} CountConcat(s: string, t: string, ch: char)
    ensures Count(s + t, ch) == Count(s, ch) + Count(t, ch)
  {
    if |t| > 0 {
      assert (s + t)[..|s + t| - 1] == s + t[..|t| - 1];
      CountConcat(s, t[..|t| - 1], ch);
    } else {
      assert s + t == s;
    }
  }

  /** s holds no line break. */
  predicate NoNewline(s: string)
  {
    forall k :: 0 <= k < |s| ==> s[k] != '\n'
  }

  lemma NoNewlineConcat(s: string, t: string)
    requires NoNewline(s) && NoNewline(t)
    ensures NoNewline(s + t)
  {
  }

  /** A string without line breaks counts none. */
  lemma {:induction false} CountAbsent(s: string)
    requires NoNewline(s)
    ensures Count(s, '\n') == 0
  {
    if |s| > 0 {
      CountAbsent(s[..|s| - 1]);
    }
  }

  lemma ItemHasNoNewline(a: InputArgument, pad: bool, padding: int)
    requires NoNewline(a.name)
    ensures Count(Item(a, pad, padding), '\n') == 0
  {
    var head := if a.required then "--" else "[";
    var p := Put(head, pad, padding);
    assert NoNewline(p) by {
      if pad && padding > |head| {
        NoNewlineConcat(Spaces(padding - |head|), head);
      }
    }
    var suffix := Suffix(a.argType);
    assert NoNewline(suffix);
    if a.required {
      NoNewlineConcat(p, a.name);
      NoNewlineConcat(p + a.name, suffix);
    } else {
      NoNewlineConcat(p, "--");
      NoNewlineConcat(p + "--", a.name);
      NoNewlineConcat(p + "--" + a.name, suffix);
      NoNewlineConcat(p + "--" + a.name + suffix, "]");
    }
    CountAbsent(Item(a, pad, padding));
  }

  /** Euclidean division has one quotient and remainder. */
  lemma DivUnique(n: int, p: int, a: int, b: int)
    requires p > 0 && n == a * p + b && 0 <= b < p
    ensures n / p == a && n % p == b
  {
    var d := n / p;
    var m := n % p;
    assert (a - d) * p == m - b;
    MulSign(a - d, p);
  }

  lemma MulSign(x: int, p: int)
    requires p > 0
    ensures x >= 1 ==> x * p >= p
    ensures x <= -1 ==> x * p <= -p
  {
    if x >= 1 {
      assert x * p == (x - 1) * p + p;
    } else if x <= -1 {
      assert x * p == (x + 1) * p - p;
    }
  }

  lemma Quotient(n: nat, p: nat)
    requires n >= 1 && p >= 1
    ensures (n - 1) / p + (if n % p == 0 then 1 else 0) == n / p
  {
    var q := (n - 1) / p;
    var r := (n - 1) % p;
    if r + 1 == p {
      assert n == (q + 1) * p + 0;
      DivUnique(n, p, q + 1, 0);
    } else {
      assert n == q * p + (r + 1);
      DivUnique(n, p, q, r + 1);
    }
  }

  /** The count after n items from the count after n - 1 items and the n-th separator's count. */
  lemma LineBreakStep(before: nat, sep: nat, n: nat, perLine: nat)
    requires n >= 1 && perLine >= 1
    requires before == (n - 1) / perLine && sep == (if n % perLine == 0 then 1 else 0)
    ensures before + sep == n / perLine
  {
    Quotient(n, perLine);
  }

  /** The separator after an item holds a line break exactly when it ends a line. */
  lemma SeparatorCount(endsLine: bool)
    ensures Count(if endsLine then "\n" else " ", '\n') == if endsLine then 1 else 0
  {
    var sep := if endsLine then "\n" else " ";
    assert sep[..0] == "";
  }

  /**
   * With perLine > 0 and no newline in a name, the first n items of the brief
   * hold one line break per perLine arguments: a break follows exactly every
   * perLine-th argument.
   */
  lemma {:induction false} BriefLineBreaks(arguments: seq<InputArgument>, n: nat, padding: int, perLine: int)
    requires n <= |arguments| && perLine > 0
    requires forall i :: 0 <= i < |arguments| ==> NoNewline(arguments[i].name)
    ensures Count(BriefLines(arguments, n, padding, perLine), '\n') == n / perLine
  {
    if n > 0 {
      BriefLineBreaks(arguments, n - 1, padding, perLine);
      BriefLineBreaksStep(arguments, n, padding, perLine);
    }
  }

  /** The n-th item adds no line break, and its separator adds one exactly when n is a multiple of perLine. */
  lemma BriefLineBreaksStep(arguments: seq<InputArgument>, n: nat, padding: int, perLine: int)
    requires 0 < n <= |arguments| && perLine > 0 && NoNewline(arguments[n - 1].name)
    requires Count(BriefLines(arguments, n - 1, padding, perLine), '\n') == (n - 1) / perLine
    ensures Count(BriefLines(arguments, n, padding, perLine), '\n') == n / perLine
  {
    var pad := n - 1 > 0 && (n - 1) % perLine == 0;
    var before := BriefLines(arguments, n - 1, padding, perLine);
    var item := Item(arguments[n - 1], pad, padding);
    var sep := if n % perLine == 0 then "\n" else " ";
    ItemHasNoNewline(arguments[n - 1], pad, padding);
    CountConcat(before, item, '\n');
    CountConcat(before + item, sep, '\n');
    SeparatorCount(n % perLine == 0);
    LineBreakStep(Count(before, '\n'), Count(sep, '\n'), n, perLine);
  }

  /** The brief of declared arguments does not change when more are declared later. */
  lemma {:induction false} BriefLinesPrefix(arguments: seq<InputArgument>, extra: seq<InputArgument>, n: nat, padding: int, perLine: int)
    requires n <= |arguments| && perLine != 0
    ensures BriefLines(arguments + extra, n, padding, perLine) == BriefLines(arguments, n, padding, perLine)
  {
    if n > 0 {
      BriefLinesPrefix(arguments, extra, n - 1, padding, perLine);
      assert (arguments + extra)[n - 1] == arguments[n - 1];
    }
  }

  // ------------------------------------------------------------- summary

  /** The length of the longest name (std::max_element by name length). */
  function Widest(arguments: seq<InputArgument>): (n: nat)
    requires |arguments| >= 1
    ensures forall i :: 0 <= i < |arguments| ==> |arguments[i].name| <= n
    ensures exists i :: 0 <= i < |arguments| && |arguments[i].name| == n
  {
    if |arguments| == 1 then |arguments[0].name|
    else
      var rest := Widest(arguments[1..]);
      assert forall i :: 1 <= i < |arguments| ==> arguments[i] == arguments[1..][i - 1];
      if |arguments[0].name| >= rest then |arguments[0].name| else rest
  }

  /** summary's column width: the smallest multiple of 4 strictly greater than length. */
  function Padding(length: nat): (p: nat)
    ensures p % 4 == 0 && length < p <= length + 4
  {
    if length % 4 == 0 then length + 4 else (length / 4 + 1) * 4
  }

  /** No multiple of 4 strictly greater than length is below Padding(length). */
  lemma PaddingSmallest(length: nat, q: nat)
    requires q % 4 == 0 && length < q
    ensures Padding(length) <= q
  {
    var p := Padding(length);
    assert q == 4 * (q / 4) && p == 4 * (p / 4);
    assert p / 4 - 1 < q / 4;
  }

  function TypeName(t: ArgumentType): string
  {
    match t
    case String => "Type: String"
    case Integer => "Type: Integer"
    case Float => "Type: Float"
    case Boolean => "Type: Boolean"
  }

  /**
   * The summary block of one argument: the name left-aligned in a column of
   * width padding, then the description; indented type, default and required
   * lines; then an empty line.
   */
  function Block(a: InputArgument, padding: nat): string
  {
    NameLine(a, padding) + TypeLine(a, padding) + DefaultLine(a, padding) + RequiredLine(a, padding) + "\n"
  }

  /** The name, left-aligned in the column, then the description. */
  function NameLine(a: InputArgument, padding: nat): string
  {
    PadRight(a.name, padding) + a.description + "\n"
  }

  /** setw(padding) << ' ' indents by padding spaces. */
  function TypeLine(a: InputArgument, padding: nat): string
  {
    PadRight(" ", padding) + TypeName(a.argType) + "\n"
  }

  /** Written only for a non-empty default. */
  function DefaultLine(a: InputArgument, padding: nat): string
  {
    if a.defaultValue != "" then PadRight(" ", padding) + "Default: " + a.defaultValue + "\n" else ""
  }

  /** Written only for a required argument. */
  function RequiredLine(a: InputArgument, padding: nat): string
  {
    if a.required then PadRight(" ", padding) + "Required" + "\n" else ""
  }

  function Blocks(arguments: seq<InputArgument>, n: nat, padding: nat): string
    requires n <= |arguments|
  {
    if n == 0 then "" else Blocks(arguments, n - 1, padding) + Block(arguments[n - 1], padding)
  }

  /** The pieces of x + y + z are found at their offsets. */
  lemma ConcatSlices(x: string, y: string, z: string)
    ensures (x + y + z)[..|x|] == x
    ensures (x + y + z)[|x|..|x| + |y|] == y
  {
  }

  /** A block is its padded name, its description, then the rest. */
  lemma BlockPieces(a: InputArgument, padding: nat)
    ensures Block(a, padding) == PadRight(a.name, padding) + a.description
              + ("\n" + (TypeLine(a, padding) + DefaultLine(a, padding) + RequiredLine(a, padding) + "\n"))
  {
  }

  /** a's block starts with its name padded with spaces to the column, and its description starts at the column. */
  predicate NameInColumn(a: InputArgument, padding: nat)
  {
    |a.name| < padding &&
    Block(a, padding)[..padding] == a.name + Spaces(padding - |a.name|) &&
    Block(a, padding)[padding..padding + |a.description|] == a.description
  }

  /** A name shorter than the column is padded to it, and the description follows at column padding. */
  lemma NameColumn(a: InputArgument, padding: nat)
    requires |a.name| < padding
    ensures NameInColumn(a, padding)
  {
    BlockPieces(a, padding);
    ConcatSlices(PadRight(a.name, padding), a.description,
                 "\n" + (TypeLine(a, padding) + DefaultLine(a, padding) + RequiredLine(a, padding) + "\n"));
  }

  /**
   * Every name fits summary's column with at least one space to spare, so every
   * description starts in the same column, padding characters in.
   */
  lemma SummaryNameColumn(arguments: seq<InputArgument>, i: int)
    requires 0 <= i < |arguments|
    ensures NameInColumn(arguments[i], Padding(Widest(arguments)))
  {
    var w := Widest(arguments);
    assert |arguments[i].name| <= w;
    NameColumn(arguments[i], Padding(w));
  }

  /** The item part of one pass of brief's loop: the argument's pieces appended to the stream, the first one padded when pad is set. */
  method WriteItem(stream: string, argument: InputArgument, pad: bool, padding: int) returns (text: string)
    ensures text == stream + Item(argument, pad, padding)
  {
    text := stream;
    var pending := pad;
    if !argument.required {
      text := text + Put("[", pending, padding);
      pending := false;
    }
    text := text + Put("--", pending, padding) + argument.name;
    ghost var named := text;
    assert named == stream + Opening(argument, pad, padding) + argument.name;
    if argument.argType == String {
      text := text + "=<string>";
    } else if argument.argType == Integer || argument.argType == Float {
      text := text + "=<number>";
    }
    assert text == named + Suffix(argument.argType);
    if !argument.required {
      text := text + "]";
    }
    assert text == named + Suffix(argument.argType) + (if argument.required then "" else "]");
    ItemPieces(argument, pad, padding);
    Regroup(stream, Opening(argument, pad, padding), argument.name,
            Suffix(argument.argType), if argument.required then "" else "]");
  }

  /** summary's loop: the blocks of the declared arguments, one after another. */
  method WriteBlocks(declared: seq<InputArgument>, padding: nat) returns (text: string)
    ensures text == Blocks(declared, |declared|, padding)
  {
    text := "";
    for k := 0 to |declared|
      invariant text == Blocks(declared, k, padding)
    {
      BlocksNext(declared, k, padding);
      text := WriteBlock(text, declared[k], padding);
    }
  }

  lemma BlocksNext(arguments: seq<InputArgument>, k: nat, padding: nat)
    requires k < |arguments|
    ensures Blocks(arguments, k + 1, padding) == Blocks(arguments, k, padding) + Block(arguments[k], padding)
  {
  }

  /** One pass of summary's loop: argument's block appended to the stream. */
  method WriteBlock(stream: string, argument: InputArgument, padding: nat) returns (text: string)
    ensures text == stream + Block(argument, padding)
  {
    text := stream;
    ghost var before := text;
    text := text + PadRight(argument.name, padding) + argument.description + "\n";
    Regroup3(before, PadRight(argument.name, padding), argument.description, "\n");
    ghost var named := text;
    assert named == before + NameLine(argument, padding);
    text := text + PadRight(" ", padding) + TypeName(argument.argType);
    text := text + "\n";
    Regroup3(named, PadRight(" ", padding), TypeName(argument.argType), "\n");
    ghost var typed := text;
    assert typed == named + TypeLine(argument, padding);
    if argument.defaultValue != "" {
      text := text + PadRight(" ", padding) + "Default: " + argument.defaultValue;
      text := text + "\n";
      Regroup(typed, PadRight(" ", padding), "Default: ", argument.defaultValue, "\n");
    }
    ghost var defaulted := text;
    assert defaulted == typed + DefaultLine(argument, padding);
    if argument.required {
      text := text + PadRight(" ", padding) + "Required";
      text := text + "\n";
      Regroup3(defaulted, PadRight(" ", padding), "Required", "\n");
    }
    assert text == defaulted + RequiredLine(argument, padding);
    text := text + "\n";
    Regroup5(before, NameLine(argument, padding), TypeLine(argument, padding),
             DefaultLine(argument, padding), RequiredLine(argument, padding), "\n");
  }

  /** The map the resolution loop builds from the first k declarations, stored one after another. */
  function ResolvedMap(declared: seq<InputArgument>, k: nat, args: map<string, string>): map<string, ArgumentValue>
    requires k <= |declared|
  {
    if k == 0 then map[]
    else ResolvedMap(declared, k - 1, args)[declared[k - 1].name := Resolve(declared[k - 1], args)]
  }

  /** The stored map has exactly one key per declared name. */
  lemma {:induction false} ResolvedMapKeys(declared: seq<InputArgument>, k: nat, args: map<string, string>)
    requires k <= |declared|
    ensures ResolvedMap(declared, k, args).Keys == Names(declared, k)
  {
    if k > 0 {
      ResolvedMapKeys(declared, k - 1, args);
      assert Names(declared, k) == Names(declared, k - 1) + {declared[k - 1].name};
    }
  }

  /** A name holds the value of its last declaration: a later same-name store overwrites an earlier one. */
  lemma {:induction false} ResolvedMapLast(declared: seq<InputArgument>, k: nat, args: map<string, string>, i: nat)
    requires i < k <= |declared| && LastOfName(declared, k, i)
    ensures declared[i].name in ResolvedMap(declared, k, args)
    ensures ResolvedMap(declared, k, args)[declared[i].name] == Resolve(declared[i], args)
  {
    if i < k - 1 {
      assert declared[k - 1].name != declared[i].name;
      assert LastOfName(declared, k - 1, i);
      ResolvedMapLast(declared, k - 1, args, i);
    }
  }

  /** One pass of parse's loop after the required check: the text, then the typed value. */
  method ResolveArgument(a: InputArgument, args: map<string, string>) returns (argumentValue: ArgumentValue)
    ensures argumentValue == Resolve(a, args)
  {
    var strValue := if a.name in args then args[a.name] else a.defaultValue;
    var value: Payload;
    if a.argType == Integer {
      value := AsInteger(strValue);
    } else if a.argType == Float {
      value := AsFloat(strValue);
    } else if a.argType == Boolean {
      value := AsBoolean(strValue == "true");
    } else {
      value := AsString(strValue);
    }
    argumentValue := ArgumentValue(a.argType, value);
  }

  class CliInput {
    var arguments: seq<InputArgument>

    constructor ()
      ensures arguments == []
    {
      arguments := [];
    }

    /** addArgument: the declaration goes at the end. */
    method AddArgument(argument: InputArgument)
      modifies this
      ensures arguments == old(arguments) + [argument]
    {
      arguments := arguments + [argument];
    }

    /**
     * brief(padding, perLine): the items of all arguments in declaration order,
     * a line break after every perLine-th, and a final line break.
     */
    method Brief(padding: int, perLine: int) returns (text: string)
      requires perLine != 0
      ensures text == BriefLines(arguments, |arguments|, padding, perLine) + "\n"
    {
      text := "";
      var c := 1;
      var pad := false;
      for k := 0 to |arguments|
        invariant c == k + 1
        invariant pad == (k > 0 && k % perLine == 0)
        invariant text == BriefLines(arguments, k, padding, perLine)
      {
        BriefLinesNext(arguments, k, padding, perLine);
        text := WriteItem(text, arguments[k], pad, padding);
        pad := false;
        if c % perLine == 0 {
          text := text + "\n";
          pad := true;
        } else {
          text := text + " ";
        }
        c := c + 1;
      }
      text := text + "\n";
    }

    /** summary(): one block per argument, in declaration order, with the name column Padding(Widest). */
    method Summary() returns (text: string)
      requires |arguments| >= 1
      ensures text == Blocks(arguments, |arguments|, Padding(Widest(arguments)))
    {
      var padding := Padding(Widest(arguments));
      text := WriteBlocks(arguments, padding);
    }

    /**
     * The resolution loop of parse, given the tokenised map args: the first
     * required argument (in declaration order) that args lacks raises the
     * error; otherwise the result has one entry per declared name, holding the
     * value of the last declaration of that name.
     */
    method Parse(args: map<string, string>) returns (r: Result<map<string, ArgumentValue>, string>)
      ensures r.Failure? <==> exists i :: 0 <= i < |arguments| && Missing(arguments[i], args)
      ensures r.Failure? ==>
                exists i :: FirstMissing(arguments, args, i) && r.error == RequiredMessage(arguments[i].name)
      ensures r.Success? ==> r.value.Keys == Names(arguments, |arguments|)
      ensures r.Success? ==>
                forall i :: 0 <= i < |arguments| && LastOfName(arguments, |arguments|, i) ==>
                  r.value[arguments[i].name] == Resolve(arguments[i], args)
    {
      var declared := arguments;
      var argumentMap: map<string, ArgumentValue> := map[];
      for k := 0 to |declared|
        invariant forall j :: 0 <= j < k ==> !Missing(declared[j], args)
        invariant argumentMap == ResolvedMap(declared, k, args)
      {
        var a := declared[k];
        if a.required && a.name !in args {
          assert FirstMissing(declared, args, k);
          return Failure(RequiredMessage(a.name));
        }
        var argumentValue := ResolveArgument(a, args);
        argumentMap := argumentMap[a.name := argumentValue];
      }
      ResolvedMapKeys(declared, |declared|, args);
      forall i | 0 <= i < |declared| && LastOfName(declared, |declared|, i)
        ensures argumentMap[declared[i].name] == Resolve(declared[i], args)
      {
        ResolvedMapLast(declared, |declared|, args, i);
      }
      return Success(argumentMap);
    }
  }
}
