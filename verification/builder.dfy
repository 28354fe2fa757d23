/**
 * The document builder: a fold over the parsed query results that keeps the
 * last query's id and description and appends every flattened hit and every
 * flattened HSP, in order.
 */
module Builder {
  import opened Dicts
  import opened Records

  /** One query result as the parser yields it. */
  datatype QueryResult<S> = QueryResult(
    id: string,
    description: string,
    hits: seq<Hit>,
    hsps: seq<Hsp<S>>)

  /** The value of a finished output document. */
  datatype DocValue = DocValue(id: string, description: string, hits: seq<Dict>, hsps: seq<Dict>)

  /** The output document that the builder fills in place. */
  class Document {
    var id: string
    var description: string
    var hits: seq<Dict>
    var hsps: seq<Dict>

    /** A fresh document: empty id and description, no hits, no HSPs. */
    constructor ()
      ensures id == "" && description == "" && hits == [] && hsps == []
    {
      id, description, hits, hsps := "", "", [], [];
    }

    /** The inner loop over one query's hits: each flattened hit is appended in order. */
    method AppendHits(newHits: seq<Hit>)
      modifies this
      ensures hits == old(hits) + FlattenHits(newHits)
      ensures id == old(id) && description == old(description) && hsps == old(hsps)
    {
      var j := 0;
      while j < |newHits|
        invariant 0 <= j <= |newHits|
        invariant hits == old(hits) + FlattenHits(newHits[..j])
        invariant id == old(id) && description == old(description) && hsps == old(hsps)
      {
        assert newHits[..j + 1][..j] == newHits[..j];
        hits := hits + [HitToDict(newHits[j])];
        j := j + 1;
      }
      assert newHits[..j] == newHits;
    }

    /** The inner loop over one query's HSPs: each flattened HSP is appended in order. */
    method AppendHsps<S>(newHsps: seq<Hsp<S>>, seqToString: S -> string)
      modifies this
      ensures hsps == old(hsps) + FlattenHsps(newHsps, seqToString)
      ensures id == old(id) && description == old(description) && hits == old(hits)
    {
      var k := 0;
      while k < |newHsps|
        invariant 0 <= k <= |newHsps|
        invariant hsps == old(hsps) + FlattenHsps(newHsps[..k], seqToString)
        invariant id == old(id) && description == old(description) && hits == old(hits)
      {
        assert newHsps[..k + 1][..k] == newHsps[..k];
        hsps := hsps + [HspToDict(newHsps[k], seqToString)];
        k := k + 1;
      }
      assert newHsps[..k] == newHsps;
    }

    function Value(): DocValue
      reads this
    {
      DocValue(id, description, hits, hsps)
    }
  }

  /** hit2dict applied to each hit, in order. */
  function FlattenHits(hits: seq<Hit>): (ds: seq<Dict>)
    ensures |ds| == |hits|
    ensures forall k :: 0 <= k < |hits| ==> ds[k] == HitToDict(hits[k])
  {
    if hits == [] then [] else FlattenHits(hits[..|hits| - 1]) + [HitToDict(hits[|hits| - 1])]
  }

  /** hsp2dict applied to each HSP, in order. */
  function FlattenHsps<S>(hsps: seq<Hsp<S>>, seqToString: S -> string): (ds: seq<Dict>)
    ensures |ds| == |hsps|
    ensures forall k :: 0 <= k < |hsps| ==> ds[k] == HspToDict(hsps[k], seqToString)
  {
    if hsps == [] then []
    else FlattenHsps(hsps[..|hsps| - 1], seqToString) + [HspToDict(hsps[|hsps| - 1], seqToString)]
  }

  /** The concatenation, over the query results in order, of what `part` yields for each. */
  function Gather<S>(qs: seq<QueryResult<S>>, part: QueryResult<S> -> seq<Dict>): seq<Dict>
  {
    if qs == [] then [] else Gather(qs[..|qs| - 1], part) + part(qs[|qs| - 1])
  }

  function HitPart<S>(q: QueryResult<S>): seq<Dict>
  {
    FlattenHits(q.hits)
  }

  function HspPart<S>(seqToString: S -> string): QueryResult<S> -> seq<Dict>
  {
    (q: QueryResult<S>) => FlattenHsps(q.hsps, seqToString)
  }

  /** Every flattened hit of every query result, in input order. */
  function AllHits<S>(qs: seq<QueryResult<S>>): seq<Dict>
  {
    Gather(qs, HitPart)
  }

  /** Every flattened HSP of every query result, in input order. */
  function AllHsps<S>(qs: seq<QueryResult<S>>, seqToString: S -> string): seq<Dict>
  {
    Gather(qs, HspPart(seqToString))
  }

  /** The number of hits over all query results. */
  function HitCount<S>(qs: seq<QueryResult<S>>): nat
  {
    if qs == [] then 0 else HitCount(qs[..|qs| - 1]) + |qs[|qs| - 1].hits|
  }

  /** The number of HSPs over all query results. */
  function HspCount<S>(qs: seq<QueryResult<S>>): nat
  {
    if qs == [] then 0 else HspCount(qs[..|qs| - 1]) + |qs[|qs| - 1].hsps|
  }

  /**
   * The document the builder produces, stated as a value: the last query's
   * id and description (empty strings when there is none), all hits and all
   * HSPs.
   */
  function Convert<S>(qs: seq<QueryResult<S>>, seqToString: S -> string): DocValue
  {
    DocValue(if qs == [] then "" else qs[|qs| - 1].id,
             if qs == [] then "" else qs[|qs| - 1].description,
             AllHits(qs),
             AllHsps(qs, seqToString))
  }

  /**
   * hmmer2json: walks the query results in order, overwriting the id and
   * description and appending each flattened hit and HSP to the document.
   */
  method Hmmer2Json<S>(qresults: seq<QueryResult<S>>, seqToString: S -> string) returns (doc: Document)
    ensures fresh(doc)
    ensures doc.Value() == Convert(qresults, seqToString)
  {
    doc := new Document();
    var i := 0;
    while i < |qresults|
      invariant 0 <= i <= |qresults|
      invariant doc.Value() == Convert(qresults[..i], seqToString)
    {
      var qres := qresults[i];
      doc.id := qres.id;
      doc.description := qres.description;
      doc.AppendHits(qres.hits);
      doc.AppendHsps(qres.hsps, seqToString);
      assert qresults[..i + 1] == qresults[..i] + [qres];
      ConvertSnoc(qresults[..i], qres, seqToString);
      i := i + 1;
    }
    assert qresults[..|qresults|] == qresults;
  }

  /** Gathering over two consecutive runs of query results concatenates the two gatherings. */
  lemma {:induction false} GatherAppend<S>(a: seq<QueryResult<S>>, b: seq<QueryResult<S>>, part: QueryResult<S> -> seq<Dict>)
    ensures Gather(a + b, part) == Gather(a, part) + Gather(b, part)
  {
    if b == [] {
      assert a + b == a;
    } else {
      assert (a + b)[..|a + b| - 1] == a + b[..|b| - 1];
      GatherAppend(a, b[..|b| - 1], part);
    }
  }

  /**
   * Entry j of query result i's part sits in the gathering right after the
   * parts of all earlier query results.
   */
  lemma GatherAt<S>(qs: seq<QueryResult<S>>, part: QueryResult<S> -> seq<Dict>, i: nat, j: nat)
    requires i < |qs| && j < |part(qs[i])|
    ensures |Gather(qs[..i], part)| + j < |Gather(qs, part)|
    ensures Gather(qs, part)[|Gather(qs[..i], part)| + j] == part(qs[i])[j]
  {
    assert qs == qs[..i] + [qs[i]] + qs[i + 1..];
    GatherAppend(qs[..i] + [qs[i]], qs[i + 1..], part);
    GatherAppend(qs[..i], [qs[i]], part);
    assert Gather([qs[i]], part) == part(qs[i]) by {
      assert [qs[i]][..0] == [];
    }
  }

  /** The hits list holds one entry per hit of the input. */
  lemma {:induction false} HitTotal<S>(qs: seq<QueryResult<S>>)
    ensures |AllHits(qs)| == HitCount(qs)
  {
    if qs != [] {
      HitTotal(qs[..|qs| - 1]);
    }
  }

  /** The HSPs list holds one entry per HSP of the input. */
  lemma {:induction false} HspTotal<S>(qs: seq<QueryResult<S>>, seqToString: S -> string)
    ensures |AllHsps(qs, seqToString)| == HspCount(qs)
  {
    if qs != [] {
      HspTotal(qs[..|qs| - 1], seqToString);
    }
  }

  /**
   * Hit j of query result i is flattened into the hits list at the position
   * after all hits of earlier query results: the list is the in-order
   * concatenation.
   */
  lemma HitPosition<S>(qs: seq<QueryResult<S>>, i: nat, j: nat)
    requires i < |qs| && j < |qs[i].hits|
    ensures HitCount(qs[..i]) + j < |AllHits(qs)|
    ensures AllHits(qs)[HitCount(qs[..i]) + j] == HitToDict(qs[i].hits[j])
  {
    HitTotal(qs[..i]);
    GatherAt(qs, HitPart, i, j);
  }

  /**
   * HSP j of query result i is flattened into the HSPs list at the position
   * after all HSPs of earlier query results.
   */
  lemma HspPosition<S>(qs: seq<QueryResult<S>>, seqToString: S -> string, i: nat, j: nat)
    requires i < |qs| && j < |qs[i].hsps|
    ensures HspCount(qs[..i]) + j < |AllHsps(qs, seqToString)|
    ensures AllHsps(qs, seqToString)[HspCount(qs[..i]) + j] == HspToDict(qs[i].hsps[j], seqToString)
  {
    HspTotal(qs[..i], seqToString);
    GatherAt(qs, HspPart(seqToString), i, j);
  }

  /**
   * Processing two runs of query results one after the other: the hits and
   * HSPs of both are kept, in order, while the id and description of the
   * first run are discarded whenever the second run is not empty.
   */
  lemma ConvertAppend<S>(a: seq<QueryResult<S>>, b: seq<QueryResult<S>>, seqToString: S -> string)
    ensures Convert(a + b, seqToString).hits == Convert(a, seqToString).hits + Convert(b, seqToString).hits
    ensures Convert(a + b, seqToString).hsps == Convert(a, seqToString).hsps + Convert(b, seqToString).hsps
    ensures b != [] ==> Convert(a + b, seqToString).id == Convert(b, seqToString).id
    ensures b != [] ==> Convert(a + b, seqToString).description == Convert(b, seqToString).description
    ensures b == [] ==> Convert(a + b, seqToString) == Convert(a, seqToString)
  {
    GatherAppend(a, b, HitPart);
    GatherAppend(a, b, HspPart(seqToString));
    if b == [] {
      assert a + b == a;
    }
  }

  /**
   * One step of the fold: a further query result replaces the id and
   * description and appends its own flattened hits and HSPs.
   */
  lemma ConvertSnoc<S>(qs: seq<QueryResult<S>>, q: QueryResult<S>, seqToString: S -> string)
    ensures Convert(qs + [q], seqToString)
         == DocValue(q.id, q.description,
                     Convert(qs, seqToString).hits + FlattenHits(q.hits),
                     Convert(qs, seqToString).hsps + FlattenHsps(q.hsps, seqToString))
  {
  }

  /**
   * A single query result gives its own id and description, and exactly its
   * own hits and HSPs flattened in order (H hits and S HSPs give lists of
   * lengths H and S).
   */
  lemma ConvertSingle<S>(q: QueryResult<S>, seqToString: S -> string)
    ensures Convert([q], seqToString)
         == DocValue(q.id, q.description, FlattenHits(q.hits), FlattenHsps(q.hsps, seqToString))
  {
    ConvertSnoc([], q, seqToString);
    assert [] + [q] == [q];
  }

  /** No query results: empty id and description, no hits, no HSPs. */
  lemma ConvertEmpty<S>(seqToString: S -> string)
    ensures Convert([], seqToString) == DocValue("", "", [], [])
  {
  }
}
