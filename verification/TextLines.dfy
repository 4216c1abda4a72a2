/** Splitting a text into lines the way `lines()` does, for bytes and for characters. */
module TextLines {

  /** What counts as the end of a line: a newline, with one carriage return before it dropped. */
  datatype Ending<T(==)> = Ending(newline: T, carriageReturn: T)

  function Stripped<T(==)>(e: Ending<T>, line: seq<T>): seq<T> {
    if line != [] && line[|line| - 1] == e.carriageReturn then line[..|line| - 1] else line
  }

  /** The lines of `text`, given the part of its first line already read. */
  function Lines<T(==)>(e: Ending<T>, text: seq<T>, current: seq<T>): seq<seq<T>> {
    if text == [] then (if current == [] then [] else [current]) else
    if text[0] == e.newline then [Stripped(e, current)] + Lines(e, text[1..], [])
    else Lines(e, text[1..], current + [text[0]])
  }

  /** A newline-free line in front is read as the first line. */
  lemma {:induction false} FirstLine<T>(e: Ending<T>, line: seq<T>, current: seq<T>, rest: seq<T>)
    requires e.newline !in line
    ensures Lines(e, line + [e.newline] + rest, current) == [Stripped(e, current + line)] + Lines(e, rest, [])
  {
    var all := line + [e.newline] + rest;
    if line == [] {
      assert all == [e.newline] + rest && current + line == current;
      assert all[1..] == rest;
    } else {
      assert all[0] == line[0] && all[1..] == line[1..] + [e.newline] + rest;
      assert current + line == current + [line[0]] + line[1..];
      FirstLine(e, line[1..], current + [line[0]], rest);
    }
  }

  function Newlines<T(==)>(e: Ending<T>, text: seq<T>): nat {
    if text == [] then 0 else (if text[0] == e.newline then 1 else 0) + Newlines(e, text[1..])
  }

  lemma {:induction false} NewlinesAppend<T>(e: Ending<T>, a: seq<T>, b: seq<T>)
    ensures Newlines(e, a + b) == Newlines(e, a) + Newlines(e, b)
  {
    if a == [] {
      assert a + b == b;
    } else {
      assert (a + b)[1..] == a[1..] + b;
      NewlinesAppend(e, a[1..], b);
    }
  }

  lemma {:induction false} NewlinesNone<T>(e: Ending<T>, text: seq<T>)
    ensures Newlines(e, text) == 0 <==> e.newline !in text
  {
    if text != [] { NewlinesNone(e, text[1..]); assert text == [text[0]] + text[1..]; }
  }

  /** One line per newline, and one more for a rest without one. */
  lemma {:induction false} LineCount<T>(e: Ending<T>, text: seq<T>, current: seq<T>)
    ensures var open := if text == [] then current != [] else text[|text| - 1] != e.newline;
            |Lines(e, text, current)| == Newlines(e, text) + if open then 1 else 0
  {
    if text != [] {
      if |text| == 1 {
        assert text[1..] == [];
      }
      if text[0] == e.newline {
        LineCount(e, text[1..], []);
      } else {
        LineCount(e, text[1..], current + [text[0]]);
      }
    }
  }
}
