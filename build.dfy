/**
 The sentence builder of index.js: `build(subject, verb, noun, ...adj)` gives
 "<subject> <verb>ed the <adj1>, <adj2>, ... <noun>". The verb takes the
 suffix "ed" literally, and when no adjective is given the adjective segment
 and its trailing space are left out.
 */
module Sentence {
  import opened Joining

  /** The separator the adjectives are joined with. */
  const Comma: string := ", "

  /** Everything before the adjectives: the subject, a space, the verb with "ed", and " the ". */
  function Head(subject: string, verb: string): (h: string)
    ensures |h| == |subject| + |verb| + 8
  {
    subject + " " + verb + "ed the "
  }

  /** The adjective segment (`adjString`): empty without adjectives, else the joined adjectives and one space. */
  function AdjSegment(adj: seq<string>): (s: string)
    ensures s == "" <==> adj == []
    ensures adj != [] ==> s[|s| - 1] == ' '
  {
    if |adj| > 0 then Join(adj, Comma) + " " else ""
  }

  /** The sentence `build` returns. */
  function Build(subject: string, verb: string, noun: string, adj: seq<string>): string
  {
    Head(subject, verb) + AdjSegment(adj) + noun
  }

  /**
   An independent description of the adjective segment: each adjective is
   followed by its own terminator, ", " for all but the last and " " for the last.
   */
  function Listed(adj: seq<string>): string
  {
    if adj == [] then "" else adj[0] + (if |adj| == 1 then " " else Comma) + Listed(adj[1..])
  }

  /** The join-based adjective segment and the element-by-element description agree. */
  lemma {:induction false} AdjSegmentIsListed(adj: seq<string>)
    ensures AdjSegment(adj) == Listed(adj)
  {
    if |adj| > 1 {
      AdjSegmentIsListed(adj[1..]);
      assert Join(adj, Comma) == adj[0] + Comma + Join(adj[1..], Comma);
    }
  }

  /** Without adjectives the sentence is the subject, verb+"ed", " the " and the noun, and nothing else. */
  lemma BuildNoAdjectives(subject: string, verb: string, noun: string)
    ensures Build(subject, verb, noun, []) == subject + " " + verb + "ed the " + noun
  {
  }

  /** The head consists of the subject, one space, the verb, the literal "ed" and " the ", in that order. */
  lemma HeadParts(subject: string, verb: string)
    ensures Head(subject, verb)[..|subject|] == subject
    ensures Head(subject, verb)[|subject|] == ' '
    ensures Head(subject, verb)[|subject| + 1..|subject| + 1 + |verb|] == verb
    ensures Head(subject, verb)[|subject| + 1 + |verb|..|subject| + |verb| + 3] == "ed"
    ensures Head(subject, verb)[|subject| + |verb| + 3..] == " the "
  {
    var sp, glue := subject + " ", "ed the ";
    var tail := verb + glue;
    assert Head(subject, verb) == sp + tail;
    SliceBefore(subject, " ", 0, |subject|);
    SliceBefore(sp, tail, 0, |subject|);
    SliceBefore(verb, glue, 0, |verb|);
    SliceAfter(sp, tail, 0, |verb|);
    assert glue[..2] == "ed";
    SliceAfter(verb, glue, 0, 2);
    SliceAfter(sp, tail, |verb|, |verb| + 2);
    assert glue[2..] == " the ";
    SliceAfter(verb, glue, 2, 7);
    SliceAfter(sp, tail, |verb| + 2, |verb| + 7);
  }

  // The slicing steps in the bodies of HeadParts, BuildPrefix, BuildSuffix and BuildMiddle
  // are not needed for soundness; they keep the solver's cost low and stable across seeds.

  /** Every sentence starts with the subject, a space, the verb, the literal "ed" and " the ". */
  lemma BuildPrefix(subject: string, verb: string, noun: string, adj: seq<string>)
    ensures |Head(subject, verb)| <= |Build(subject, verb, noun, adj)|
    ensures Build(subject, verb, noun, adj)[..|Head(subject, verb)|] == subject + " " + verb + "ed the "
    ensures Build(subject, verb, noun, adj)[..|subject|] == subject
    ensures Build(subject, verb, noun, adj)[|subject|] == ' '
    ensures Build(subject, verb, noun, adj)[|subject| + 1..|subject| + 1 + |verb|] == verb
    ensures Build(subject, verb, noun, adj)[|subject| + 1 + |verb|..|subject| + |verb| + 3] == "ed"
  {
    var h, rest := Head(subject, verb), AdjSegment(adj) + noun;
    assert Build(subject, verb, noun, adj) == h + rest;
    HeadParts(subject, verb);
    SliceBefore(h, rest, 0, |h|);
    SliceBefore(h, rest, 0, |subject|);
    SliceBefore(h, rest, |subject| + 1, |subject| + 1 + |verb|);
    SliceBefore(h, rest, |subject| + 1 + |verb|, |subject| + |verb| + 3);
  }

  /** Every sentence ends with the noun. */
  lemma BuildSuffix(subject: string, verb: string, noun: string, adj: seq<string>)
    ensures |noun| <= |Build(subject, verb, noun, adj)|
    ensures Build(subject, verb, noun, adj)[|Build(subject, verb, noun, adj)| - |noun|..] == noun
  {
    var front := Head(subject, verb) + AdjSegment(adj);
    SliceAfter(front, noun, 0, |noun|);
  }

  /**
   With adjectives, what lies between " the " and the noun is the adjectives
   joined by ", " and one space.
   */
  lemma BuildMiddle(subject: string, verb: string, noun: string, adj: seq<string>)
    requires adj != []
    ensures |Head(subject, verb)| + |noun| <= |Build(subject, verb, noun, adj)|
    ensures Build(subject, verb, noun, adj)[|Head(subject, verb)|..|Build(subject, verb, noun, adj)| - |noun|]
         == Join(adj, ", ") + " "
  {
    var h, m := Head(subject, verb), Join(adj, Comma) + " ";
    assert Build(subject, verb, noun, adj) == h + (m + noun);
    SliceAfter(h, m + noun, 0, |m|);
    assert (m + noun)[0..|m|] == m;
  }

  /**
   The length of the sentence: the three words, eight characters of glue, and
   for k >= 1 adjectives their lengths, 2(k-1) characters of ", " and one space.
   */
  lemma BuildLength(subject: string, verb: string, noun: string, adj: seq<string>)
    ensures |Build(subject, verb, noun, adj)|
         == |subject| + |verb| + |noun| + 8
            + (if adj == [] then 0 else TotalLength(adj) + 2 * (|adj| - 1) + 1)
  {
    JoinLength(adj, Comma);
  }

  /** Where adjective `adj[i]` starts in the sentence. */
  function AdjectivePosition(subject: string, verb: string, adj: seq<string>, i: nat): nat
    requires i < |adj|
  {
    |Head(subject, verb)| + Offset(adj, Comma, i)
  }

  /** Each adjective appears in the sentence at its position. */
  lemma BuildAdjectiveAt(subject: string, verb: string, noun: string, adj: seq<string>, i: nat)
    requires i < |adj|
    ensures AdjectivePosition(subject, verb, adj, i) + |adj[i]| <= |Build(subject, verb, noun, adj)|
    ensures Build(subject, verb, noun, adj)[AdjectivePosition(subject, verb, adj, i)..
                                            AdjectivePosition(subject, verb, adj, i) + |adj[i]|] == adj[i]
  {
    var h, k, j := Head(subject, verb), Offset(adj, Comma, i), Join(adj, Comma);
    JoinAt(adj, Comma, i);
    var seg := AdjSegment(adj);
    assert seg == j + " ";
    SliceBefore(j, " ", k, k + |adj[i]|);
    SliceBefore(seg, noun, k, k + |adj[i]|);
    assert Build(subject, verb, noun, adj) == h + (seg + noun);
    SliceAfter(h, seg + noun, k, k + |adj[i]|);
  }

  /** The adjectives appear in the sentence in the order they were passed, each ended before the next begins. */
  lemma BuildAdjectiveOrder(subject: string, verb: string, adj: seq<string>, i: nat, j: nat)
    requires i < j < |adj|
    ensures AdjectivePosition(subject, verb, adj, i) + |adj[i]| + |Comma| <= AdjectivePosition(subject, verb, adj, j)
  {
    JoinOrder(adj, Comma, i, j);
  }

  /** Two adjectives, spelled out. */
  lemma BuildTwo(subject: string, verb: string, noun: string, a: string, b: string)
    ensures Build(subject, verb, noun, [a, b]) == subject + " " + verb + "ed the " + a + ", " + b + " " + noun
  {
    var h := Head(subject, verb);
    assert [a, b][1..] == [b];
    assert Join([a, b], Comma) == a + Comma + b;
    assert AdjSegment([a, b]) == a + ", " + b + " ";
    assert h + (a + ", " + b + " ") == h + a + ", " + b + " ";
  }

  /** Three adjectives, spelled out. */
  lemma BuildThree(subject: string, verb: string, noun: string, a: string, b: string, c: string)
    ensures Build(subject, verb, noun, [a, b, c])
         == subject + " " + verb + "ed the " + a + ", " + b + ", " + c + " " + noun
  {
    var h := Head(subject, verb);
    assert [a, b, c][1..] == [b, c];
    assert [b, c][1..] == [c];
    assert Join([b, c], Comma) == b + Comma + c;
    assert Join([a, b, c], Comma) == a + Comma + (b + Comma + c);
    assert AdjSegment([a, b, c]) == a + ", " + b + ", " + c + " ";
    assert h + (a + ", " + b + ", " + c + " ") == h + a + ", " + b + ", " + c + " ";
  }

  /** The literal text of the first example, assembled piece by piece. */
  lemma ThreeAdjectivesText()
    ensures "Charlie" + " " + "punch" + "ed the " + "big" + ", " + "scary" + ", " + "dirty" + " " + "clown"
         == "Charlie punched the big, scary, dirty clown"
  {
    assert "Charlie" + " " + "punch" + "ed the " == "Charlie punched the ";
    assert "Charlie punched the " + "big" + ", " == "Charlie punched the big, ";
    assert "Charlie punched the big, " + "scary" + ", " == "Charlie punched the big, scary, ";
    assert "Charlie punched the big, scary, " + "dirty" + " " == "Charlie punched the big, scary, dirty ";
  }

  /** The first example of index.js: three adjectives. */
  lemma ExampleThreeAdjectives()
    ensures Build("Charlie", "punch", "clown", ["big", "scary", "dirty"])
         == "Charlie punched the big, scary, dirty clown"
  {
    BuildThree("Charlie", "punch", "clown", "big", "scary", "dirty");
    ThreeAdjectivesText();
  }

  /** The literal text of the second example, assembled piece by piece. */
  lemma TwoAdjectivesText()
    ensures "Charlie" + " " + "kick" + "ed the " + "brown" + ", " + "ugly" + " " + "spider"
         == "Charlie kicked the brown, ugly spider"
  {
    assert "Charlie" + " " + "kick" + "ed the " == "Charlie kicked the ";
    assert "Charlie kicked the " + "brown" + ", " == "Charlie kicked the brown, ";
    assert "Charlie kicked the brown, " + "ugly" + " " == "Charlie kicked the brown, ugly ";
  }

  /** The second example of index.js: two adjectives. */
  lemma ExampleTwoAdjectives()
    ensures Build("Charlie", "kick", "spider", ["brown", "ugly"])
         == "Charlie kicked the brown, ugly spider"
  {
    BuildTwo("Charlie", "kick", "spider", "brown", "ugly");
    TwoAdjectivesText();
  }

  /** The third example of index.js: no adjectives. */
  lemma ExampleNoAdjectives()
    ensures Build("Charlie", "attack", "cake", []) == "Charlie attacked the cake"
  {
    BuildNoAdjectives("Charlie", "attack", "cake");
    assert "Charlie" + " " + "attack" + "ed the " == "Charlie attacked the ";
  }
}
