/** What the program writes to standard output, as text.

    Every report in the program goes through Python's `print`, which writes
    its argument followed by a newline, and the list of missing guidelines is
    first glued together with `"\n".join(...)`.  This module gives those two
    operations and the "one printed line per element" view of a list of lines.
 */
module Console {

  /** The text written by `print(s)`: `s` and a newline. */
  function Printed(s: string): string {
    s + "\n"
  }

  /** Python's `sep.join(items)`: the items with `sep` between neighbours. */
  function Join(sep: string, items: seq<string>): string
    decreases |items|
  {
    if items == [] then ""
    else if |items| == 1 then items[0]
    else items[0] + sep + Join(sep, items[1..])
  }

  /** The text written by printing each line in turn. */
  function Text(lines: seq<string>): string
    decreases |lines|
  {
    if lines == [] then "" else Printed(lines[0]) + Text(lines[1..])
  }

  /** Printing a non-empty list of lines joined by newlines writes the same
      text as printing the lines one by one. */
  lemma {:induction false} PrintedJoinIsText(items: seq<string>)
    requires items != []
    ensures Printed(Join("\n", items)) == Text(items)
  {
    if |items| == 1 {
      assert items[1..] == [];
    } else {
      PrintedJoinIsText(items[1..]);
      calc {
        Printed(Join("\n", items));
        items[0] + "\n" + Join("\n", items[1..]) + "\n";
        Printed(items[0]) + Printed(Join("\n", items[1..]));
        Printed(items[0]) + Text(items[1..]);
      }
    }
  }
}
