/**
 * The parsed search-result records (as the HMMER3 text parser hands them
 * over) and the two flatteners that project a hit or an HSP onto a fixed set
 * of dictionary keys.
 */
module Records {
  import opened Wrappers
  import opened Dicts

  /** The attributes of a parsed hit that the flattener reads. */
  datatype Hit = Hit(
    description: string,
    bias: Float,
    bitscore: Float,
    evalue: Float,
    domainExpNum: Float,   // expected number of domains
    domainObsNum: int)     // observed number of domains

  /**
   * One side of an alignment (`hsp.query` or `hsp.hit`): an identifier, a
   * description and the aligned sequence object `S`, whose string form is
   * given by a conversion the model does not look into.
   */
  datatype SeqRecord<S> = SeqRecord(id: string, description: string, aligned: S)

  /** The attributes of a parsed HSP (one domain alignment) that the flattener reads. */
  datatype Hsp<S> = Hsp(
    bias: Float,
    bitscore: Float,
    evalue: Float,
    accAvg: Float,
    envStart: int,
    envEnd: int,
    query: SeqRecord<S>,
    queryStart: int,
    queryEnd: int,
    hit: SeqRecord<S>,
    hitStart: int,
    hitEnd: int)

  /** The keys of a flattened hit, in the order they are written. */
  const HitKeys: seq<string> :=
    ["description", "bias", "bitscore", "evalue", "dom_exp_num", "domain_obs_num"]

  /** The keys of a flattened HSP, in the order they are written. */
  const HspKeys: seq<string> :=
    ["bias", "bitscore", "evalue", "acc_avg", "env_start", "env_end",
     "query_id", "query_description", "query_seq", "query_start", "query_end",
     "hit_id", "hit_description", "hit_seq", "hit_start", "hit_end"]

  lemma HitKeysDistinct()
    ensures |HitKeys| == 6 && Distinct(HitKeys)
  {
  }

  lemma HspKeysDistinct()
    ensures |HspKeys| == 16 && Distinct(HspKeys)
  {
  }

  /** hit2dict: the hit's attributes under the six hit keys. */
  function HitToDict(hit: Hit): Dict
  {
    [("description", Text(hit.description)),
     ("bias", Real(hit.bias)),
     ("bitscore", Real(hit.bitscore)),
     ("evalue", Real(hit.evalue)),
     ("dom_exp_num", Real(hit.domainExpNum)),
     ("domain_obs_num", Integer(hit.domainObsNum))]
  }

  /**
   * A flattened hit has exactly the six hit keys, each holding the hit's
   * attribute unchanged; the expected domain count is stored under
   * "dom_exp_num", and there is no "domain_exp_num" key.
   */
  lemma HitToDictEntries(hit: Hit)
    ensures var d := HitToDict(hit);
      && Keys(d) == HitKeys
      && Lookup(d, "description") == Some(Text(hit.description))
      && Lookup(d, "bias") == Some(Real(hit.bias))
      && Lookup(d, "bitscore") == Some(Real(hit.bitscore))
      && Lookup(d, "evalue") == Some(Real(hit.evalue))
      && Lookup(d, "dom_exp_num") == Some(Real(hit.domainExpNum))
      && Lookup(d, "domain_obs_num") == Some(Integer(hit.domainObsNum))
      && Lookup(d, "domain_exp_num") == None
  {
    var d := HitToDict(hit);
    assert Keys(d) == HitKeys;
    HitKeysDistinct();
    LookupAt(d, 0); LookupAt(d, 1); LookupAt(d, 2);
    LookupAt(d, 3); LookupAt(d, 4); LookupAt(d, 5);
    LookupAbsent(d, "domain_exp_num");
  }

  /** What a reader of the JSON recovers from a flattened hit, if it is one. */
  function ParseHit(d: Dict): Option<Hit>
  {
    if Keys(d) == HitKeys
       && GetText(d, "description").Some?
       && GetReal(d, "bias").Some?
       && GetReal(d, "bitscore").Some?
       && GetReal(d, "evalue").Some?
       && GetReal(d, "dom_exp_num").Some?
       && GetInt(d, "domain_obs_num").Some?
    then Some(Hit(GetText(d, "description").value,
                  GetReal(d, "bias").value,
                  GetReal(d, "bitscore").value,
                  GetReal(d, "evalue").value,
                  GetReal(d, "dom_exp_num").value,
                  GetInt(d, "domain_obs_num").value))
    else None
  }

  /**
   * The flattened hits are exactly the dictionaries that read back as a hit,
   * and each reads back as the hit it came from: nothing is lost or altered.
   */
  lemma HitDictRoundTrip(d: Dict, hit: Hit)
    ensures ParseHit(d) == Some(hit) <==> d == HitToDict(hit)
  {
    HitToDictEntries(hit);
    if ParseHit(d) == Some(hit) {
      var e := HitToDict(hit);
      HitKeysDistinct();
      forall k | k in Keys(d)
        ensures Lookup(d, k) == Lookup(e, k)
      {
        assert k in HitKeys;
      }
      Extensionality(d, e);
    }
  }

  /**
   * The HSP as it appears in the output: the same record with each aligned
   * sequence replaced by its string form.
   */
  function AsText<S>(hsp: Hsp<S>, seqToString: S -> string): Hsp<string>
  {
    Hsp(hsp.bias, hsp.bitscore, hsp.evalue, hsp.accAvg, hsp.envStart, hsp.envEnd,
        SeqRecord(hsp.query.id, hsp.query.description, seqToString(hsp.query.aligned)),
        hsp.queryStart, hsp.queryEnd,
        SeqRecord(hsp.hit.id, hsp.hit.description, seqToString(hsp.hit.aligned)),
        hsp.hitStart, hsp.hitEnd)
  }

  /** hsp2dict: the HSP's attributes under the sixteen HSP keys. */
  function HspToDict<S>(hsp: Hsp<S>, seqToString: S -> string): Dict
  {
    [("bias", Real(hsp.bias)),
     ("bitscore", Real(hsp.bitscore)),
     ("evalue", Real(hsp.evalue)),
     ("acc_avg", Real(hsp.accAvg)),
     ("env_start", Integer(hsp.envStart)),
     ("env_end", Integer(hsp.envEnd)),
     ("query_id", Text(hsp.query.id)),
     ("query_description", Text(hsp.query.description)),
     ("query_seq", Text(seqToString(hsp.query.aligned))),
     ("query_start", Integer(hsp.queryStart)),
     ("query_end", Integer(hsp.queryEnd)),
     ("hit_id", Text(hsp.hit.id)),
     ("hit_description", Text(hsp.hit.description)),
     ("hit_seq", Text(seqToString(hsp.hit.aligned))),
     ("hit_start", Integer(hsp.hitStart)),
     ("hit_end", Integer(hsp.hitEnd))]
  }

  /**
   * A flattened HSP has exactly the sixteen HSP keys; "query_seq" and
   * "hit_seq" hold the string forms of the aligned sequences and every other
   * key holds the attribute of the HSP or of its query or hit side unchanged.
   */
  lemma HspToDictEntries<S>(hsp: Hsp<S>, seqToString: S -> string)
    ensures var d := HspToDict(hsp, seqToString);
      && Keys(d) == HspKeys
      && Lookup(d, "bias") == Some(Real(hsp.bias))
      && Lookup(d, "bitscore") == Some(Real(hsp.bitscore))
      && Lookup(d, "evalue") == Some(Real(hsp.evalue))
      && Lookup(d, "acc_avg") == Some(Real(hsp.accAvg))
      && Lookup(d, "env_start") == Some(Integer(hsp.envStart))
      && Lookup(d, "env_end") == Some(Integer(hsp.envEnd))
      && Lookup(d, "query_id") == Some(Text(hsp.query.id))
      && Lookup(d, "query_description") == Some(Text(hsp.query.description))
      && Lookup(d, "query_seq") == Some(Text(seqToString(hsp.query.aligned)))
      && Lookup(d, "query_start") == Some(Integer(hsp.queryStart))
      && Lookup(d, "query_end") == Some(Integer(hsp.queryEnd))
      && Lookup(d, "hit_id") == Some(Text(hsp.hit.id))
      && Lookup(d, "hit_description") == Some(Text(hsp.hit.description))
      && Lookup(d, "hit_seq") == Some(Text(seqToString(hsp.hit.aligned)))
      && Lookup(d, "hit_start") == Some(Integer(hsp.hitStart))
      && Lookup(d, "hit_end") == Some(Integer(hsp.hitEnd))
  {
    var d := HspToDict(hsp, seqToString);
    assert Keys(d) == HspKeys;
    HspKeysDistinct();
    LookupAt(d, 0); LookupAt(d, 1); LookupAt(d, 2); LookupAt(d, 3);
    LookupAt(d, 4); LookupAt(d, 5); LookupAt(d, 6); LookupAt(d, 7);
    LookupAt(d, 8); LookupAt(d, 9); LookupAt(d, 10); LookupAt(d, 11);
    LookupAt(d, 12); LookupAt(d, 13); LookupAt(d, 14); LookupAt(d, 15);
  }

  /** What a reader of the JSON recovers from a flattened HSP, if it is one. */
  function ParseHsp(d: Dict): Option<Hsp<string>>
  {
    if Keys(d) == HspKeys
       && GetReal(d, "bias").Some?
       && GetReal(d, "bitscore").Some?
       && GetReal(d, "evalue").Some?
       && GetReal(d, "acc_avg").Some?
       && GetInt(d, "env_start").Some?
       && GetInt(d, "env_end").Some?
       && GetText(d, "query_id").Some?
       && GetText(d, "query_description").Some?
       && GetText(d, "query_seq").Some?
       && GetInt(d, "query_start").Some?
       && GetInt(d, "query_end").Some?
       && GetText(d, "hit_id").Some?
       && GetText(d, "hit_description").Some?
       && GetText(d, "hit_seq").Some?
       && GetInt(d, "hit_start").Some?
       && GetInt(d, "hit_end").Some?
    then Some(Hsp(GetReal(d, "bias").value,
                  GetReal(d, "bitscore").value,
                  GetReal(d, "evalue").value,
                  GetReal(d, "acc_avg").value,
                  GetInt(d, "env_start").value,
                  GetInt(d, "env_end").value,
                  SeqRecord(GetText(d, "query_id").value,
                            GetText(d, "query_description").value,
                            GetText(d, "query_seq").value),
                  GetInt(d, "query_start").value,
                  GetInt(d, "query_end").value,
                  SeqRecord(GetText(d, "hit_id").value,
                            GetText(d, "hit_description").value,
                            GetText(d, "hit_seq").value),
                  GetInt(d, "hit_start").value,
                  GetInt(d, "hit_end").value))
    else None
  }

  /** A dictionary that reads back as an HSP holds that HSP's fields under the HSP keys. */
  lemma ParsedHspLookups(d: Dict)
    requires ParseHsp(d).Some?
    ensures var t := ParseHsp(d).value;
      && Keys(d) == HspKeys
      && Lookup(d, "bias") == Some(Real(t.bias))
      && Lookup(d, "bitscore") == Some(Real(t.bitscore))
      && Lookup(d, "evalue") == Some(Real(t.evalue))
      && Lookup(d, "acc_avg") == Some(Real(t.accAvg))
      && Lookup(d, "env_start") == Some(Integer(t.envStart))
      && Lookup(d, "env_end") == Some(Integer(t.envEnd))
      && Lookup(d, "query_id") == Some(Text(t.query.id))
      && Lookup(d, "query_description") == Some(Text(t.query.description))
      && Lookup(d, "query_seq") == Some(Text(t.query.aligned))
      && Lookup(d, "query_start") == Some(Integer(t.queryStart))
      && Lookup(d, "query_end") == Some(Integer(t.queryEnd))
      && Lookup(d, "hit_id") == Some(Text(t.hit.id))
      && Lookup(d, "hit_description") == Some(Text(t.hit.description))
      && Lookup(d, "hit_seq") == Some(Text(t.hit.aligned))
      && Lookup(d, "hit_start") == Some(Integer(t.hitStart))
      && Lookup(d, "hit_end") == Some(Integer(t.hitEnd))
  {
  }

  /**
   * The flattened HSPs are exactly the dictionaries that read back as the
   * string form of an HSP, and each reads back as the HSP it came from: only
   * the aligned sequences change, into their string forms.
   */
  lemma HspDictRoundTrip<S>(d: Dict, hsp: Hsp<S>, seqToString: S -> string)
    ensures ParseHsp(d) == Some(AsText(hsp, seqToString)) <==> d == HspToDict(hsp, seqToString)
  {
    HspToDictEntries(hsp, seqToString);
    if ParseHsp(d) == Some(AsText(hsp, seqToString)) {
      var e := HspToDict(hsp, seqToString);
      ParsedHspLookups(d);
      HspKeysDistinct();
      forall i | 0 <= i < |HspKeys|
        ensures Lookup(d, HspKeys[i]) == Lookup(e, HspKeys[i])
      {
      }
      Extensionality(d, e);
    }
  }
}
