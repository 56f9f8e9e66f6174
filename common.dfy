/** Values shared by the whole model: optional values, the exceptions the C# code raises,
    identifiers, host names and the text-line conventions of StreamReader/StreamWriter. */
module Common {

  datatype Option<+T> = None | Some(value: T)

  /** The .NET exceptions that the modelled code lets escape. */
  datatype Error =
    | NullReference
    | KeyNotFound
    | InvalidCast
    | ArgumentError
    | InvalidOperation
    | NotSupported
    | Overflow
    | IndexOutOfRange
    | IoFailure
    | Failure(message: string)

  datatype Result<+T> = Ok(value: T) | Err(error: Error)

  /** A 128-bit System.Guid. */
  newtype Guid = n: int | 0 <= n < 0x1_0000_0000_0000_0000_0000_0000_0000_0000

  /** `new Guid()` / `default(Guid)`: all zero bits. */
  const EmptyGuid: Guid := 0

  /** Windows.Networking.HostName; `IsEqual` compares canonical names. */
  datatype HostName = HostName(canonicalName: string)

  /** `String.IsNullOrEmpty`, with `None` standing for a null reference. */
  predicate IsNullOrEmpty(s: Option<string>)
  {
    s.None? || s.value == ""
  }

  // ---------------------------------------------------------------------------------------
  // Text lines

  predicate IsLineBreak(c: char)
  {
    c == '\r' || c == '\n'
  }

  predicate HasNoLineBreak(s: string)
  {
    forall i | 0 <= i < |s| :: !IsLineBreak(s[i])
  }

  /** The characters before the first line break of `s`. */
  function LineOf(s: string): (line: string)
    ensures |line| <= |s| && line == s[..|line|]
    ensures HasNoLineBreak(line)
    ensures |line| < |s| ==> IsLineBreak(s[|line|])
  {
    if s == [] || IsLineBreak(s[0]) then [] else [s[0]] + LineOf(s[1..])
  }

  /** A prefix of `s` without line breaks puts no break at any of its positions of `s`. */
  lemma NoBreakInside(s: string, line: string, i: int)
    ensures 0 <= i < |line| <= |s| && line == s[..|line|] && HasNoLineBreak(line)
            ==> !IsLineBreak(s[i])
  {
    if 0 <= i < |line| <= |s| && line == s[..|line|] {
      assert s[i] == line[i];
    }
  }

  /** The first line is the only prefix without a break that ends at a break or at the end. */
  lemma LineOfUnique(s: string, line: string)
    requires |line| <= |s| && line == s[..|line|] && HasNoLineBreak(line)
    requires |line| < |s| ==> IsLineBreak(s[|line|])
    ensures LineOf(s) == line
  {
    var l := LineOf(s);
    NoBreakInside(s, line, |l|);
    NoBreakInside(s, l, |line|);
  }

  /** `StreamReader.ReadLine` on a stream holding `s`: null at the end of the stream, else the
      text up to the first line break. */
  function ReadLine(s: string): (r: Option<string>)
    ensures r.None? <==> s == []
    ensures r.Some? ==> r.value == LineOf(s)
  {
    if s == [] then None else Some(LineOf(s))
  }

  /** `Environment.NewLine` on Windows, which `StreamWriter.WriteLine` appends. */
  const NewLine: string := "\r\n"

  /** The text `StreamWriter.WriteLineAsync(m)` writes; a null `m` writes only the line end. */
  function WriteLine(m: Option<string>): (text: string)
    ensures |text| >= 2 && text[|text| - 2..] == NewLine
  {
    match m
    case None => NewLine
    case Some(s) => s + NewLine
  }

  /** Writing a line and reading it back gives the text again, exactly when the text holds no
      line break of its own. */
  lemma ReadLineOfWriteLine(m: string, rest: string)
    ensures ReadLine(WriteLine(Some(m)) + rest) == Some(m) <==> HasNoLineBreak(m)
  {
    var s := WriteLine(Some(m)) + rest;
    assert s[..|m|] == m;
    if HasNoLineBreak(m) {
      assert s[|m|] == '\r';
      LineOfUnique(s, m);
    }
  }

  /** A whole written line read back: the text itself, or the empty line for a null text. */
  lemma ReadLineOfOneLine(m: Option<string>)
    ensures (m.Some? ==> HasNoLineBreak(m.value))
            ==> ReadLine(WriteLine(m)) == if m.Some? then m else Some("")
  {
    if m.Some? {
      ReadLineOfWriteLine(m.value, "");
      assert WriteLine(m) + "" == WriteLine(m);
    } else {
      assert LineOf(WriteLine(m)) == "";
    }
  }

  // ---------------------------------------------------------------------------------------
  // List<T>.Remove / ObservableCollection<T>.Remove

  function IndexOf<T(==)>(s: seq<T>, x: T): (i: nat)
    requires x in s
    ensures i < |s| && s[i] == x && x !in s[..i]
  {
    if s[0] == x then 0 else 1 + IndexOf(s[1..], x)
  }

  /** `List<T>.Remove(x)`: drops the first occurrence of `x`, if any. */
  function RemoveFirst<T(==)>(s: seq<T>, x: T): (r: seq<T>)
    ensures x !in s ==> r == s
    ensures x in s ==> |r| == |s| - 1 && r[..IndexOf(s, x)] == s[..IndexOf(s, x)]
                       && r[IndexOf(s, x)..] == s[IndexOf(s, x) + 1..]
    ensures multiset(r) == multiset(s) - multiset{x}
  {
    if x in s then
      var i := IndexOf(s, x);
      assert s == s[..i] + [x] + s[i + 1..];
      s[..i] + s[i + 1..]
    else
      s
  }

  predicate Distinct<T(==)>(s: seq<T>)
  {
    forall i, j | 0 <= i < j < |s| :: s[i] != s[j]
  }

  /** Removing from a list without duplicates removes every occurrence. */
  lemma RemoveFirstOfDistinct<T>(s: seq<T>, x: T)
    requires Distinct(s)
    ensures Distinct(RemoveFirst(s, x)) && x !in RemoveFirst(s, x)
    ensures forall y | y != x :: y in RemoveFirst(s, x) <==> y in s
  {
    var r := RemoveFirst(s, x);
    assert multiset(r)[x] == 0;
    forall y | y != x
      ensures y in r <==> y in s
    {
      assert multiset(r)[y] == multiset(s)[y];
    }
    if x in s {
      var i := IndexOf(s, x);
      assert r == s[..i] + s[i + 1..];
      forall a, b | 0 <= a < b < |r|
        ensures r[a] != r[b]
      {
        var a' := if a < i then a else a + 1;
        var b' := if b < i then b else b + 1;
        assert r[a] == s[a'] && r[b] == s[b'];
      }
    }
  }
}
