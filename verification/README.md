# hmmer2json, modelled in Dafny

`hmmer2json.py` turns HMMER3 text search output into one JSON document. The
document has four keys: `id` and `description` of the query, a `hits` list and
an `hsps` list. An HSP is a high-scoring pair, i.e. one domain alignment. The
script relies on Biopython's `SearchIO` parser, which yields one
query-result record after another. This model takes that output as a given
`seq<QueryResult<S>>`. It models the logic the script adds on top:

- `dicts.dfy` (`Dicts`): a Python dict as the flatteners build it. It is an
  insertion-ordered list of `(key, value)` entries, with lookup and an
  extensionality lemma. Values are text, integers or opaque floats. Float
  values are never computed, only copied.
- `records.dfy` (`Records`): the parsed hit and HSP records. It has the two
  flatteners `hit2dict` and `hsp2dict`, modelled as `Records.HitToDict` and
  `Records.HspToDict`, plus decoders (`ParseHit`,
  `ParseHsp`). The decoders show that the flatteners lose nothing: only an
  HSP's aligned sequences become their string forms. That conversion,
  `str(seq)`, is a function parameter `seqToString: S -> string` that the
  model does not look into.
- `builder.dfy` (`Builder`): the output document, a class whose fields are
  updated in place. `Hmmer2Json` is the loop of `hmmer2json`. It is proved
  equal to the pure reference `Convert`: the last query's id and
  description, and the in-order concatenation of every flattened hit and HSP.
- `output_path.dfy` (`OutputPath`): the default output path of `main`, i.e.
  `input[:input.rfind('.')] + '.json'`. It includes Python `rfind` and
  negative-index slicing, plus the corrected derivation described under
  Findings.

With no '.' at all, `rfind` gives -1 and `s[:-1]` drops the last character;
`DefaultOutputPath` does the same.

## Model

| member | source | states |
|---|---|---|
| `Records.HitToDictEntries` | hmmer2json.py:43-50 | a flattened hit has exactly the six keys `description, bias, bitscore, evalue, dom_exp_num, domain_obs_num`, in that order; each holds the hit's attribute unchanged; `domain_exp_num` is stored under `dom_exp_num`, and no `domain_exp_num` key exists |
| `Records.HitDictRoundTrip` | hmmer2json.py:34-52 | a dictionary reads back as hit `h` exactly when it is `hit2dict(h)`: flattening a hit loses and alters nothing |
| `Records.HspToDictEntries` | hmmer2json.py:64-81 | a flattened HSP has exactly the sixteen HSP keys, in source order; `query_seq` and `hit_seq` hold `str` of the query and hit aligned sequences; every other key holds the HSP's attribute, or that of its query or hit side, unchanged |
| `Records.HspDictRoundTrip` | hmmer2json.py:55-83 | a dictionary reads back as the string form of HSP `h` exactly when it is `hsp2dict(h)`: the only change is aligned sequence to string |
| `Builder.FlattenHits` | hmmer2json.py:107-108 | the flattened hits of one query: one entry per hit, entry k is `hit2dict` of hit k |
| `Builder.FlattenHsps` | hmmer2json.py:109-110 | the flattened HSPs of one query: one entry per HSP, entry k is `hsp2dict` of HSP k |
| `Builder.Document.constructor` | hmmer2json.py:96-100 | a new document has empty `id` and `description` and empty `hits` and `hsps` |
| `Builder.Document.AppendHits` | hmmer2json.py:107-108 | appending one query's hits extends `hits` by exactly their flattened forms, in order, and leaves `id`, `description` and `hsps` unchanged |
| `Builder.Document.AppendHsps` | hmmer2json.py:109-110 | appending one query's HSPs extends `hsps` by exactly their flattened forms, in order, and leaves `id`, `description` and `hits` unchanged |
| `Builder.Hmmer2Json` | hmmer2json.py:86-112 | the built document is a new object whose value equals the reference `Convert` of the query results |
| `Builder.ConvertSnoc` | hmmer2json.py:103-110 | one step of the loop: a further query result replaces `id` and `description` and appends its own flattened hits and HSPs |
| `Builder.ConvertEmpty` | hmmer2json.py:96-100 | with no query results, the document keeps empty `id` and `description` and has no hits or HSPs |
| `Builder.ConvertSingle` | hmmer2json.py:103-110 | a single query result gives its own id and description, and exactly its own H hits and S HSPs flattened in order |
| `Builder.ConvertAppend` | hmmer2json.py:103-110 | for two runs of query results processed one after the other, hits and HSPs of both are kept in order; the first run's id and description are discarded whenever the second run is non-empty (last one wins) |
| `Builder.GatherAppend` | hmmer2json.py:103-110 | collecting over two consecutive runs of query results concatenates the two collections |
| `Builder.GatherAt` | hmmer2json.py:103-110 | entry j of query i's part sits right after the parts of all earlier queries |
| `Builder.HitTotal` | hmmer2json.py:103-108 | the length of `hits` is the total number of hits over all query results |
| `Builder.HspTotal` | hmmer2json.py:103-110 | the length of `hsps` is the total number of HSPs over all query results |
| `Builder.HitPosition` | hmmer2json.py:103-108 | hit j of query i appears in `hits` at index (number of hits of queries before i) + j, as `hit2dict` of that hit |
| `Builder.HspPosition` | hmmer2json.py:103-110 | HSP j of query i appears in `hsps` at index (number of HSPs of queries before i) + j, as `hsp2dict` of that HSP |
| `OutputPath.RFind` | hmmer2json.py:119 | `str.rfind`: -1 or an index holding the character, with no occurrence after it |
| `OutputPath.SliceTo` | hmmer2json.py:119 | Python `s[:stop]`: a prefix of `s` whose length follows Python's rules for negative and out-of-range stops |
| `OutputPath.DefaultOutputPath` | hmmer2json.py:118-119 | the default path ends with `.json`; what precedes it is a prefix of the input and, for a non-empty input, always strictly shorter than the input |
| `OutputPath.ResolveOutputPath` | hmmer2json.py:117-119 | a non-empty explicit output path is kept unchanged; a missing or empty one is falsy in Python and is replaced by the default derivation |
| `OutputPath.DefaultWithDot` | hmmer2json.py:118-119 | when the input contains a '.', the default is the input up to but excluding its last '.', followed by `.json`, even when that '.' lies in a directory component |
| `OutputPath.DefaultWithoutDot` | hmmer2json.py:118-119 | when the input contains no '.', the default is the input minus its last character, followed by `.json`; an empty input gives `.json` |
| `OutputPath.SampleExample` | hmmer2json.py:118-119 | `sample.hmmer.out` gives `sample.hmmer.json` |
| `OutputPath.NoDotDropsLastCharacter` | hmmer2json.py:118-119 | `data/sample` gives `data/sampl.json` as written, and `data/sample.json` with the intended derivation |
| `OutputPath.DirectoryDotCutsPath` | hmmer2json.py:118-119 | `./hits` gives `.json` as written, and `./hits.json` with the intended derivation |
| `OutputPath.IntendedOutputPath` | hmmer2json.py:118-119 | corrected derivation: ends with `.json`, and its stem is a prefix of the input |
| `OutputPath.IntendedKeepsDirectories` | hmmer2json.py:118-119 | corrected derivation: every directory prefix of the input, up to and including a '/', is kept |
| `OutputPath.IntendedNoExtensionInName` | hmmer2json.py:118-119 | corrected derivation: when the file name after the last '/' has no '.', the whole input is kept and `.json` is appended, whatever dots the directories contain |
| `OutputPath.IntendedWithoutDot` | hmmer2json.py:118-119 | corrected derivation: without a '.', the input is kept whole and `.json` is appended |
| `OutputPath.DefaultAgreesOnExtensions` | hmmer2json.py:118-119 | when the last '.' is an extension within the file name, the as-written and corrected derivations agree: both give the input up to that '.', followed by `.json` |

## Findings

| source | as written | input that shows it | evidently intended | confidence | as-written member | corrected member |
|---|---|---|---|---|---|---|
| hmmer2json.py:118-119 | with no '.' in the input, `rfind` returns -1 and `[:-1]` drops the last character | `data/sample` gives `data/sampl.json` | `data/sample.json`: keep the whole name when it has no extension | high; not executed | `OutputPath.NoDotDropsLastCharacter` | `OutputPath.IntendedOutputPath` |
| hmmer2json.py:118-119 | the last '.' is searched for in the whole path, including directory components | `./hits` gives `.json` | `./hits.json`: strip an extension of the file name only | high; not executed | `OutputPath.DirectoryDotCutsPath` | `OutputPath.IntendedOutputPath` |

Both findings come from `OutputPath.DefaultOutputPath`, which models the code
as written. `OutputPath.ResolveOutputPath` models `main` and therefore keeps
the as-written derivation. The corrected `OutputPath.IntendedOutputPath` has
its own properties proved (`IntendedWithoutDot`, `IntendedKeepsDirectories`),
and `DefaultAgreesOnExtensions` shows it matches the as-written derivation whenever the
input has a real file-name extension.

## Left out

- Command-line parsing (`parse_user_arguments`, argparse): the output path
  option is the `Option<string>` argument of `ResolveOutputPath`.
- Opening, reading, writing and closing files, and the errors they raise: I/O.
- `SearchIO.parse(..., format='hmmer3-text')`: a library call that owns the
  HMMER3 grammar and its parse errors. Its output is the given
  `seq<QueryResult<S>>`. Its laziness is not modelled, because the loop
  consumes it fully anyway.
- `QueryResult.hsps`: in Biopython this is derived from the hits. Here it is
  a given sequence, in the order the parser yields it.
- `json.dump`: serialization by a library. The document is modelled up to
  the dictionaries it would serialize, with their key order.
- Floating-point semantics of `bias`, `bitscore`, `evalue`, `acc_avg` and
  `domain_exp_num`: they are the opaque type `Float` and are only copied.
- The text of `str(hsp.query.seq)` and `str(hsp.hit.seq)`: it is the
  uninterpreted parameter `seqToString`.
- Attribute errors from records that lack a field: the record datatypes
  always carry every field the flatteners read.
- Hit and HSP attributes that the flatteners do not read (for example a
  hit's own id) are not part of the record datatypes.
- Builder.Hmmer2Json: the two inner `for` loops of `hmmer2json` are written
  as the `Document` methods `AppendHits` and `AppendHsps`, which the outer
  loop calls. The loops and their order are unchanged.
- OutputPath.IntendedOutputPath: it treats only '/' as a path separator.
