/**
 * The line reported after a successful run, with the decimal rendering of
 * the count (the `%d` verb) and a reader that recovers the count from it.
 */
module Messages {
  import opened Entries

  const SingleRemoval: string := "Removed a single directory."
  const CountPrefix: string := "Removed "
  const CountSuffix: string := " directories."

  predicate IsDigit(c: char)
  {
    '0' <= c <= '9'
  }

  /** The decimal numeral of `n`, without leading zeros. */
  function Decimal(n: nat): (s: string)
    ensures |s| >= 1
    ensures forall i :: 0 <= i < |s| ==> IsDigit(s[i])
    ensures s[0] == '0' ==> n == 0
  {
    if n < 10 then ['0' + n as char]
    else Decimal(n / 10) + ['0' + (n % 10) as char]
  }

  /** The value of a string of decimal digits. */
  function DecimalValue(s: string): nat
    requires forall i :: 0 <= i < |s| ==> IsDigit(s[i])
  {
    if s == [] then 0
    else
      assert IsDigit(s[|s| - 1]);
      DecimalValue(s[..|s| - 1]) * 10 + (s[|s| - 1] as int - '0' as int)
  }

  /** Reading back a numeral gives the number it was written from. */
  lemma {:induction false} DecimalRoundTrip(n: nat)
    ensures DecimalValue(Decimal(n)) == n
  {
    if n >= 10 {
      var s := Decimal(n);
      assert s[..|s| - 1] == Decimal(n / 10);
      DecimalRoundTrip(n / 10);
    }
  }

  /** The line for `removed` removals: nothing for none, a sentence of its
      own for one, and the decimal count otherwise. */
  function Message(removed: nat): (text: string)
    ensures text == "" <==> removed == 0
  {
    if removed == 0 then ""
    else if removed == 1 then SingleRemoval
    else CountPrefix + Decimal(removed) + CountSuffix
  }

  /** The number of removals a line reports, if it is one of the lines
      `Message` produces. */
  function RemovedCount(text: string): Option<nat>
  {
    if text == "" then Some(0)
    else if text == SingleRemoval then Some(1)
    else if |text| > |CountPrefix| + |CountSuffix|
         && text[..|CountPrefix|] == CountPrefix
         && text[|text| - |CountSuffix|..] == CountSuffix
    then
      var digits := text[|CountPrefix|..|text| - |CountSuffix|];
      if (forall i :: 0 <= i < |digits| ==> IsDigit(digits[i])) && digits[0] != '0'
      then Some(DecimalValue(digits))
      else None
    else None
  }

  /** The count can be read back from every message, so no two counts
      share a message. */
  lemma MessageRoundTrip(removed: nat)
    ensures RemovedCount(Message(removed)) == Some(removed)
  {
    if removed >= 2 {
      var digits := Decimal(removed);
      var text := CountPrefix + digits + CountSuffix;
      assert text[..|CountPrefix|] == CountPrefix;
      assert text[|text| - |CountSuffix|..] == CountSuffix;
      assert text[|CountPrefix|..|text| - |CountSuffix|] == digits;
      assert text != SingleRemoval by {
        assert text[|text| - |CountSuffix|..] != SingleRemoval[|SingleRemoval| - |CountSuffix|..];
      }
      DecimalRoundTrip(removed);
    }
  }

  const NotADirectoryPrefix: string := "Not a directory or path \""
  const NotADirectorySuffix: string := "\" does not exist!"

  /** The text of the error for a path that is missing or is not a
      directory: the path, quoted, between a fixed prefix and suffix, so the
      offending path can be read back from it. */
  function NotADirectoryMessage(path: string): string
  {
    NotADirectoryPrefix + path + NotADirectorySuffix
  }

  /** Two paths with the same error text are the same path. */
  lemma NotADirectoryMessageInjective(p: string, q: string)
    requires NotADirectoryMessage(p) == NotADirectoryMessage(q)
    ensures p == q
  {
    var t := NotADirectoryMessage(p);
    assert p == t[|NotADirectoryPrefix|..|NotADirectoryPrefix| + |p|];
  }

  /** The text of an error the program composes itself. Listing and removal
      failures carry the operating system's text, which is not modelled. */
  function ProgramErrorText(e: Error): Option<string>
  {
    match e
    case NotADirectory(path) => Some(NotADirectoryMessage(path))
    case _ => None
  }

  /** Different errors never share a program-made text: the text names the
      error and its path. */
  lemma ProgramErrorTextInjective(e1: Error, e2: Error)
    requires ProgramErrorText(e1) != None
    requires ProgramErrorText(e1) == ProgramErrorText(e2)
    ensures e1 == e2
  {
    NotADirectoryMessageInjective(e1.path, e2.path);
  }

  /** The error text for a path that does not exist. */
  lemma NotADirectoryExample()
    ensures NotADirectoryMessage("none/existent/path") == "Not a directory or path \"none/existent/path\" does not exist!"
  {
  }

  /** The messages the command prints for two, one and no removals. */
  lemma MessageExamples()
    ensures Message(2) == "Removed 2 directories."
    ensures Message(1) == "Removed a single directory."
    ensures Message(12) == "Removed 12 directories."
    ensures Message(0) == ""
  {
    assert Message(2) == "Removed 2 directories." by {
      assert Decimal(2) == "2";
    }
    assert Message(12) == "Removed 12 directories." by {
      assert Decimal(12) == Decimal(1) + "2" == "12";
    }
  }
}
