/**
 * Facts about concatenating Python lists of lines and strings, stated for
 * arbitrary contents so that proofs using them never look inside a line.
 */
module Lists {
  /** The lines of a sequence of parts, one part after the other. */
  function Flatten(parts: seq<seq<string>>): seq<string>
    decreases |parts|
  {
    if |parts| == 0 then [] else Flatten(parts[..|parts| - 1]) + parts[|parts| - 1]
  }

  lemma FlattenSnoc(parts: seq<seq<string>>, p: seq<string>)
    ensures Flatten(parts + [p]) == Flatten(parts) + p
  {
    assert (parts + [p])[..|parts|] == parts;
  }

  /** Flattening distributes over concatenation of the parts. */
  lemma {:induction false} FlattenAppend(a: seq<seq<string>>, b: seq<seq<string>>)
    ensures Flatten(a + b) == Flatten(a) + Flatten(b)
    decreases |b|
  {
    if |b| == 0 {
      assert a + b == a;
    } else {
      var b0 := b[..|b| - 1];
      assert a + b == (a + b0) + [b[|b| - 1]];
      FlattenAppend(a, b0);
      FlattenSnoc(a + b0, b[|b| - 1]);
      FlattenSnoc(b0, b[|b| - 1]);
    }
  }

  /** The j-th part sits, unchanged, right after the parts before it. */
  lemma FlattenAt(parts: seq<seq<string>>, j: nat)
    requires j < |parts|
    ensures var start := |Flatten(parts[..j])|;
      start + |parts[j]| <= |Flatten(parts)| &&
      Flatten(parts)[start..start + |parts[j]|] == parts[j]
  {
    var before := parts[..j];
    var rest := parts[j + 1..];
    assert parts == (before + [parts[j]]) + rest;
    FlattenAppend(before + [parts[j]], rest);
    FlattenSnoc(before, parts[j]);
    var all := Flatten(before) + parts[j] + Flatten(rest);
    assert all[|Flatten(before)|..|Flatten(before)| + |parts[j]|] == parts[j];
  }

  /** The first line of the flattened parts is the first line of the first
      part. */
  lemma FlattenHead(parts: seq<seq<string>>)
    requires parts != [] && parts[0] != []
    ensures Flatten(parts) != [] && Flatten(parts)[0] == parts[0][0]
  {
    FlattenAt(parts, 0);
    assert parts[..0] == [];
  }

  /** `lines` holds `head` at position `start`, followed at once by `tail`. */
  predicate HeadThenTail(lines: seq<string>, start: nat, head: string, tail: seq<string>)
  {
    start + 1 + |tail| <= |lines| && lines[start] == head &&
    lines[start + 1..start + 1 + |tail|] == tail
  }

  /** A part made of a head line and further lines, once its position among
      the flattened parts is known, sits at that position of the lines. */
  lemma PartAt(lines: seq<string>, parts: seq<seq<string>>, j: nat, start: nat, head: string, tail: seq<string>)
    requires j < |parts| && lines == Flatten(parts)
    requires |Flatten(parts[..j])| == start
    requires parts[j] == [head] + tail
    ensures HeadThenTail(lines, start, head, tail)
  {
    FlattenAt(parts, j);
    assert lines[start..start + 1 + |tail|] == [head] + tail;
    assert lines[start + 1..start + 1 + |tail|] == lines[start..start + 1 + |tail|][1..];
  }

  lemma AppendAssoc(a: seq<string>, b: seq<string>, c: seq<string>)
    ensures a + b + c == a + (b + c)
  {
  }

  lemma PrefixGrows(p: string, a: string, b: string)
    requires p <= a
    ensures p <= a + b
  {
    assert (a + b)[..|a|] == a;
  }

  lemma PrefixTransitive(p: string, a: string, b: string)
    requires p <= a && a <= b
    ensures p <= b
  {
  }

  lemma PrefixUnderHead(head: string, p: string, s: string)
    requires p <= s
    ensures head + p <= head + s
  {
    assert (head + s)[..|head + p|] == head + p;
  }

  lemma PrefixSharedHead(head: string, p: string, x: string)
    ensures head + p <= head + (p + x)
  {
    assert (head + (p + x))[..|head + p|] == head + p;
  }

  /** `s` ends with `tail`. */
  predicate EndsWith(s: string, tail: string)
  {
    |tail| <= |s| && s[|s| - |tail|..] == tail
  }

  lemma SuffixOfAppend(head: string, a: string, b: string)
    ensures EndsWith(head + a + b, a + b)
  {
    assert head + a + b == head + (a + b);
  }
}
