/** Text files as the diff engine reads them: a sequence of characters behind a position that getc moves,
    and the lines that the characters make up. */
module FileText {

  const EOF: int := -1
  const NL: char := '\n'

  /** A file: the bodies of its lines, and whether the last one ends in a newline. */
  datatype Doc = Doc(lines: seq<string>, nl: bool) {

    /** No body holds a newline, and an unfinished last line is not empty. */
    ghost predicate Valid() {
      && (forall i :: 0 <= i < |lines| ==> NL !in lines[i])
      && (!nl ==> lines != [] && lines[|lines| - 1] != "")
    }

    /** Number of characters read to pass the first i lines; the end of the file after an unfinished
        last line counts as one. */
    ghost function Start(i: nat): (s: nat)
      requires i <= |lines|
      ensures s >= i
    {
      if i == 0 then 0 else Start(i - 1) + |lines[i - 1]| + 1
    }

    ghost function Text(): string { Join(lines, nl) }

    /** The k-th character that reading line i (counting from 0) meets, its terminator included. */
    ghost function CharAt(i: nat, k: nat): int
      requires i < |lines| && k <= |lines[i]|
    {
      if k < |lines[i]| then lines[i][k] as int
      else if i + 1 == |lines| && !nl then EOF
      else NL as int
    }

    /** The text position at which k characters past line start i have been read. */
    ghost function Pos(i: nat, k: nat): nat
      requires i <= |lines|
    {
      if Start(i) + k <= |Text()| then Start(i) + k else |Text()|
    }

    lemma {:induction false} Tail(i: nat)
      requires i <= |lines|
      ensures Start(i) <= |Text()| ==> Text()[Start(i)..] == Join(lines[i..], nl)
      ensures Start(i) + |Join(lines[i..], nl)| == |Text()| + (if i == |lines| && i > 0 && !nl then 1 else 0)
    {
      if i == 0 {
        assert lines[0..] == lines;
      } else {
        Tail(i - 1);
        assert lines[i - 1..][1..] == lines[i..];
        if i < |lines| || nl {
          assert Text()[Start(i)..] == Text()[Start(i - 1)..][|lines[i - 1]| + 1..];
        }
      }
    }

    /** getc at (i, k) returns CharAt(i, k). */
    lemma {:induction false} Read(i: nat, k: nat)
      requires i < |lines| && k <= |lines[i]|
      ensures Pos(i, k) == Start(i) + k <= |Text()|
      ensures CharAt(i, k) == if Pos(i, k) < |Text()| then Text()[Pos(i, k)] as int else EOF
    {
      Tail(i);
      var f := Join(lines[i..], nl);
      assert lines[i..][1..] == lines[i + 1..];
      assert k < |f| ==> Text()[Start(i)..][k] == f[k];
    }
  }

  /** The characters of the given lines, each followed by a newline except possibly the last. */
  ghost function Join(lines: seq<string>, nl: bool): string {
    if lines == [] then ""
    else if |lines| == 1 && !nl then lines[0]
    else lines[0] + [NL] + Join(lines[1..], nl)
  }

  /** One more character before a text. */
  function Before(c: char, r: Doc): (d: Doc)
    requires r.Valid()
    ensures d.Valid() && d.Text() == [c] + r.Text()
  {
    if c == NL then
      assert ([""] + r.lines)[1..] == r.lines;
      Doc([""] + r.lines, r.nl)
    else if r.lines == [] then Doc([[c]], false)
    else
      assert ([[c] + r.lines[0]] + r.lines[1..])[1..] == r.lines[1..];
      Doc([[c] + r.lines[0]] + r.lines[1..], r.nl)
  }

  /** The lines of a text: every text is the text of a valid document. */
  function Split(t: string): (d: Doc)
    ensures d.Valid()
    ensures d.Text() == t
  {
    if t == "" then Doc([], true) else Before(t[0], Split(t[1..]))
  }

  /** A file open for reading. */
  class Stream {
    const text: string
    var pos: nat

    constructor (t: string)
      ensures text == t && pos == 0
    {
      text := t;
      pos := 0;
    }

    method Rewind()
      modifies this
      ensures pos == 0
    {
      pos := 0;
    }

    method Seek(offset: nat)
      modifies this
      ensures pos == offset
    {
      pos := offset;
    }

    method Getc() returns (c: int)
      modifies this
      ensures c == if old(pos) < |text| then text[old(pos)] as int else EOF
      ensures pos == if old(pos) < |text| then old(pos) + 1 else old(pos)
    {
      if pos < |text| {
        c := text[pos] as int;
        pos := pos + 1;
      } else {
        c := EOF;
      }
    }
  }
}
