# Sentence builder

A Dafny model of `build(subject, verb, noun, ...adj)` from `index.js`. The
function makes the sentence `"<subject> <verb>ed the <adj1>, <adj2>, ... <noun>"`.
It joins the trailing adjectives with `", "` and puts one space after them. With
no adjectives, the adjective segment is the empty string (`adj.length ? ... : ''`),
so the sentence is `"<subject> <verb>ed the <noun>"`. The suffix `"ed"` is added
literally, with no English morphology.

Two modules, both pure functions with lemmas:

- `Joining` (`join.dfy`): `Join(xs, sep)`, the behaviour of `Array.prototype.join`
  on an array of strings. It comes with `Offset(xs, sep, i)`, the position where
  element `i` starts in the joined string, and lemmas that place every element
  and every separator, prove that order is kept, and describe joining as a left fold.
- `Sentence` (`build.dfy`): `Head` (the text before the adjectives), `AdjSegment`
  (the source's `adjString`), and `Build` (the template literal). `Listed` is a
  separate description of the adjective segment, in which each adjective carries
  its own terminator. The lemmas give the sentence's prefix, suffix, middle,
  length, where each adjective sits and in what order, and the three example calls
  at the end of `index.js`.

JavaScript strings are modelled as Dafny `string` (`seq<char>`). The variadic
`...adj` is a `seq<string>`.

## Model

| member | source | states |
|---|---|---|
| `Joining.JoinLength` | index.js:2 | the joined string is as long as all elements together plus one separator between each pair of neighbours (the empty array gives length 0) |
| `Joining.JoinSnoc` | index.js:2 | joining is also a left fold: `Join(xs + [x], sep) == Join(xs, sep) + sep + x` for non-empty `xs` |
| `Joining.JoinAt` | index.js:2 | element `xs[i]` occurs in the joined string exactly at `Offset(xs, sep, i)`, inside the string; the last element ends the string |
| `Joining.SeparatorAt` | index.js:2 | between element `i` and element `i+1` the joined string holds exactly one copy of the separator, and nothing else |
| `Joining.JoinOrder` | index.js:2 | for `i < j`, element `i` and the separator after it end before element `j` starts (join keeps order) |
| `Sentence.Head` | index.js:3 | the text before the adjectives is 8 characters longer than subject and verb together (one space, `"ed"`, `" the "`) |
| `Sentence.AdjSegment` | index.js:2 | the adjective segment is empty exactly when no adjectives are given, and otherwise ends with a space |
| `Sentence.AdjSegmentIsListed` | index.js:2 | the join-based segment equals the element-by-element description: each adjective followed by `", "`, the last by `" "` |
| `Sentence.BuildNoAdjectives` | index.js:2-3 | with no adjectives the sentence is exactly `subject + " " + verb + "ed the " + noun` |
| `Sentence.HeadParts` | index.js:3 | the head is the subject, then one space, then the verb, then the literal `"ed"`, then `" the "`, with nothing added or changed |
| `Sentence.BuildPrefix` | index.js:3 | every sentence starts with `subject + " " + verb + "ed the "`: the subject, one space, the verb, then the literal `"ed"` |
| `Sentence.BuildSuffix` | index.js:3 | every sentence ends with the noun |
| `Sentence.BuildMiddle` | index.js:2-3 | with adjectives, the text between `"ed the "` and the noun is the adjectives joined by `", "` followed by one space |
| `Sentence.BuildLength` | index.js:2-3 | the length is `|subject| + |verb| + |noun| + 8`, plus the adjective lengths, `2(k-1)` and 1 when there are `k >= 1` adjectives |
| `Sentence.BuildAdjectiveAt` | index.js:2-3 | adjective `adj[i]` occurs in the sentence at `AdjectivePosition(subject, verb, adj, i)` |
| `Sentence.BuildAdjectiveOrder` | index.js:2 | for `i < j`, adjective `i` and the `", "` after it end before adjective `j` starts |
| `Sentence.BuildTwo` | index.js:2-3 | with two adjectives `a`, `b` the sentence is the head, `a + ", " + b + " "`, then the noun |
| `Sentence.BuildThree` | index.js:2-3 | with three adjectives `a`, `b`, `c` the sentence is the head, `a + ", " + b + ", " + c + " "`, then the noun |
| `Sentence.ExampleThreeAdjectives` | index.js:6 | `build('Charlie', 'punch', 'clown', 'big', 'scary', 'dirty')` is `"Charlie punched the big, scary, dirty clown"` |
| `Sentence.ExampleTwoAdjectives` | index.js:7 | `build('Charlie', 'kick', 'spider', 'brown', 'ugly')` is `"Charlie kicked the brown, ugly spider"` |
| `Sentence.ExampleNoAdjectives` | index.js:8 | `build('Charlie', 'attack', 'cake')` is `"Charlie attacked the cake"` |

`Joining.Join` and `Sentence.Build` have no `ensures` of their own. Their meaning
is stated by the lemmas above. For `Build` with adjectives, the prefix, middle and
suffix lemmas together fix every character of the sentence; with no adjectives,
`BuildNoAdjectives` (or the prefix and suffix lemmas together with `BuildLength`)
does.

## Left out

- The `console.log` calls in `index.js:6-8` are output. Only their argument values are kept, as the three example lemmas.
- JavaScript's implicit coercion of non-string arguments (numbers, `undefined`, objects) in the template literal and in `join` is not modelled. Every parameter is a string.
- String lengths are counted in Dafny `char`s. JavaScript counts UTF-16 code units, so the two differ for characters outside the Basic Multilingual Plane. A JavaScript string may also hold a lone surrogate code unit, which a Dafny `char` (a Unicode scalar value) cannot represent at all, so such strings are outside the model.
- The repository's currying helper and its destructuring examples are not part of this model. Their source files are not among the modelled ones, and destructuring is a language feature.
