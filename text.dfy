/** Splitting text at newline characters. */
module Text {

  /** Index of the first '\n' in `s`. */
  function FirstNewline(s: string): (i: nat)
    requires '\n' in s
    ensures i < |s| && s[i] == '\n' && '\n' !in s[..i]
    decreases |s|
  {
    if s[0] == '\n' then 0
    else
      assert '\n' in s[1..] by { assert s == [s[0]] + s[1..]; }
      var j := FirstNewline(s[1..]);
      assert s[..j + 1] == [s[0]] + s[1..][..j];
      j + 1
  }

  lemma FirstNewlineIs(s: string, i: nat)
    requires i < |s| && s[i] == '\n' && '\n' !in s[..i]
    ensures FirstNewline(s) == i
  {
  }

  /** The pieces of `s` between '\n' characters, as Python's `s.split("\n")` returns them:
      one more piece than there are newlines. */
  function Fields(s: string): (r: seq<string>)
    ensures |r| >= 1
    decreases |s|
  {
    if '\n' in s then
      var i := FirstNewline(s);
      [s[..i]] + Fields(s[i + 1..])
    else [s]
  }

  /** Unfolds `Fields` at the first newline. */
  lemma FieldsAt(s: string, i: nat)
    requires i < |s| && s[i] == '\n' && '\n' !in s[..i]
    ensures Fields(s) == [s[..i]] + Fields(s[i + 1..])
  {
    FirstNewlineIs(s, i);
  }

  lemma JoinSlices(a: string, b: string, i: nat)
    requires i <= |a|
    ensures (a + "\n" + b)[..i] == a[..i]
    ensures i < |a| ==> (a + "\n" + b)[i] == a[i] && (a + "\n" + b)[i + 1..] == a[i + 1..] + "\n" + b
    ensures i == |a| ==> (a + "\n" + b)[i] == '\n' && (a + "\n" + b)[i + 1..] == b
  {
  }

  /** A newline joins two texts: the pieces of the whole are the pieces of each part. */
  lemma {:induction false} FieldsJoin(a: string, b: string)
    ensures Fields(a + "\n" + b) == Fields(a) + Fields(b)
    decreases |a|
  {
    if '\n' in a {
      var i := FirstNewline(a);
      JoinSlices(a, b, i);
      FieldsAt(a + "\n" + b, i);
      FieldsAt(a, i);
      FieldsJoin(a[i + 1..], b);
    } else {
      JoinSlices(a, b, |a|);
      assert a[..|a|] == a;
      FieldsAt(a + "\n" + b, |a|);
    }
  }

  /** A text without newlines is a single piece. */
  lemma FieldsOfLine(s: string)
    requires '\n' !in s
    ensures Fields(s) == [s]
  {
  }

  /** A newline-free line between two newlines is a piece of its own. */
  lemma FieldsAround(head: string, line: string, tail: string)
    ensures '\n' !in line ==>
      Fields(head + "\n" + line + "\n" + tail) == Fields(head) + [line] + Fields(tail)
  {
    if '\n' !in line {
      assert head + "\n" + line + "\n" + tail == (head + "\n" + line) + "\n" + tail;
      FieldsJoin(head + "\n" + line, tail);
      FieldsJoin(head, line);
      FieldsOfLine(line);
    }
  }
}
