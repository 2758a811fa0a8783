/**
 * The Knotenlexikon: bilingual (German and English) lemma entries keyed by
 * their canonical id, with substring search over labels and definitions.
 */
module LemmaStore {
  import opened Common
  import opened Text

  datatype LemmaEntry = LemmaEntry(
    canonicalId: string,
    germanLabel: string,
    englishLabel: string,
    germanDefinition: string,
    englishDefinition: string,
    pronunciationDe: string,
    wordType: string,
    relatedConcepts: seq<string>)

  datatype Language = German | English

  /** The entry's label or definition in the language contains the term. */
  predicate Mentions(e: LemmaEntry, lang: Language, term: string)
  {
    match lang
    case German => Contains(e.germanLabel, term) || Contains(e.germanDefinition, term)
    case English => Contains(e.englishLabel, term) || Contains(e.englishDefinition, term)
  }

  /**
   * The four lemmas a new store is populated with, in insertion order. Long
   * texts are written as concatenations of short literals, which keeps them
   * cheap for the verifier.
   */
  function DefaultLemmas(): seq<LemmaEntry>
  {
    [ LemmaEntry(
        "neuro_node_path_engine", "NeuroKnotenpfad-Suchmaschine", "NeuroNodePath Engine",
        "Ein " + "computergestütztes " + "System, das " + "Code-Repositorien, " + "Modelle und " + "Protokolle als " + "Organismusnetz " + "interpretiert",
        "A system that " + "treats code " + "repositories, " + "models, and logs " + "as an " + "organism-like " + "network of nodes, " + "neurochannels, " + "clusters, and " + "interfaces",
        "NOY-ro-KNOH-ten-pf" + "aat " + "ZOOKH-ma-SHEE-nuh", "feminine, die " + "NeuroKnotenpfad-Suchmaschine",
        ["neuro_node_path", "cluster_path", "neuro_channel_interface", "organism_network", "dual_path_validation"]),
      LemmaEntry(
        "neuro_node_path", "Neuroknotenpfad", "NeuroNodePath",
        "Ein " + "nachvollziehbarer " + "Pfad durch ein " + "Netzwerk von " + "miteinander " + "verbundenen Knoten",
        "A traceable path " + "through an " + "interconnected " + "network of nodes",
        "NOY-ro-KNOH-ten-pfaat", "masculine, der " + "Neuroknotenpfad",
        ["cluster_path", "audit_path"]),
      LemmaEntry(
        "cluster_path", "Clusterpfad", "ClusterPath",
        "Ein Pfad durch " + "thematisch " + "zusammenhängende " + "Cluster",
        "A path through " + "thematically " + "related clusters",
        "KLUS-ter-pfaat", "masculine, der " + "Clusterpfad",
        ["cluster", "neuro_node_path"]),
      LemmaEntry(
        "neuro_channel_interface", "NeurokanalSchnittstelle", "NeuralChannelInterface",
        "Eine " + "Schnittstelle für " + "die " + "Datenübertragung " + "zwischen " + "Neurokanälen",
        "An interface for " + "data transmission " + "between neural " + "channels",
        "NOY-ro-kah-NAHL-sh" + "hn-it-shteh-luh", "feminine, die " + "NeurokanalSchnittstelle",
        ["neuro_channel", "interface"])
    ]
  }

  /** The entries under `keys`, in that order, that mention the term in the language. */
  function Hits(entries: map<string, LemmaEntry>, keys: seq<string>, lang: Language, term: string): (r: seq<LemmaEntry>)
    requires forall k :: k in keys ==> k in entries
    ensures |r| <= |keys|
  {
    if |keys| == 0 then []
    else
      var before := Hits(entries, keys[..|keys| - 1], lang, term);
      var e := entries[keys[|keys| - 1]];
      if Mentions(e, lang, term) then before + [e] else before
  }

  /** An entry is a hit exactly when it is stored under one of the keys and mentions the term. */
  lemma {:induction false} HitsMembers(entries: map<string, LemmaEntry>, keys: seq<string>, lang: Language, term: string, e: LemmaEntry)
    requires forall k :: k in keys ==> k in entries
    ensures e in Hits(entries, keys, lang, term) <==>
      Mentions(e, lang, term) && exists k :: k in keys && entries[k] == e
  {
    if |keys| > 0 {
      var last := keys[|keys| - 1];
      HitsMembers(entries, keys[..|keys| - 1], lang, term, e);
      if Mentions(e, lang, term) && exists k :: k in keys && entries[k] == e {
        var k :| k in keys && entries[k] == e;
        if k != last {
          assert keys == keys[..|keys| - 1] + [last];
          assert k in keys[..|keys| - 1];
        }
      }
    }
  }

  /** The entries under `keys`, in that order. */
  function Values(entries: map<string, LemmaEntry>, keys: seq<string>): (r: seq<LemmaEntry>)
    requires forall k :: k in keys ==> k in entries
    ensures |r| == |keys|
    ensures forall i :: 0 <= i < |keys| ==> r[i] == entries[keys[i]]
  {
    seq(|keys|, i requires 0 <= i < |keys| => entries[keys[i]])
  }

  /** Every entry is stored under its own canonical id. */
  ghost predicate KeyedById(entries: map<string, LemmaEntry>)
  {
    forall k :: k in entries ==> entries[k].canonicalId == k
  }

  /** The entries `populate_default_lemmas` leaves in an empty store. */
  function DefaultStore(): map<string, LemmaEntry>
  {
    var d := DefaultLemmas();
    map[][d[0].canonicalId := d[0]][d[1].canonicalId := d[1]][d[2].canonicalId := d[2]][d[3].canonicalId := d[3]]
  }

  /** The default store holds exactly the four default ids, each with its own lemma. */
  lemma DefaultStoreContents()
    ensures DefaultStore().Keys == {"neuro_node_path_engine", "neuro_node_path", "cluster_path", "neuro_channel_interface"}
    ensures forall i :: 0 <= i < 4 ==> DefaultStore()[DefaultLemmas()[i].canonicalId] == DefaultLemmas()[i]
    ensures KeyedById(DefaultStore())
  {
  }

  /** The German label of the first default lemma contains "Knoten", at index 5. */
  lemma DefaultMentionsKnoten()
    ensures Mentions(DefaultLemmas()[0], German, "Knoten")
  {
    var german := DefaultLemmas()[0].germanLabel;
    assert german[5] == 'K' && german[6] == 'n' && german[7] == 'o' && german[8] == 't' && german[9] == 'e' && german[10] == 'n';
    assert german[5..11] == "Knoten";
    ContainsAt(german, "Knoten", 5);
  }

  class KnotenlexikonStore {
    var entries: map<string, LemmaEntry>

    /** Every entry is stored under its own canonical id. */
    ghost predicate Valid()
      reads this
    {
      KeyedById(entries)
    }

    /** `KnotenlexikonStore::new`: an empty store populated with the four default lemmas, in order. */
    constructor ()
      ensures entries == DefaultStore()
    {
      entries := map[];
      new;
      var defaults := DefaultLemmas();
      AddEntry(defaults[0]);
      AddEntry(defaults[1]);
      AddEntry(defaults[2]);
      AddEntry(defaults[3]);
    }

    /** `Default`: unlike `new`, an empty store. */
    constructor Empty()
      ensures entries == map[] && Valid()
    {
      entries := map[];
    }

    /** `add_entry`: store the entry under its canonical id, replacing any entry with that id. */
    method AddEntry(e: LemmaEntry)
      modifies this`entries
      ensures entries == old(entries)[e.canonicalId := e]
      ensures old(Valid()) ==> Valid()
    {
      entries := entries[e.canonicalId := e];
    }

    /** `get_entry`: the entry stored under the id, if any; in a valid store it carries that id. */
    function GetEntry(id: string): (r: Option<LemmaEntry>)
      reads this
      ensures r.Some? <==> id in entries
      ensures r.Some? ==> r.value == entries[id]
      ensures Valid() && r.Some? ==> r.value.canonicalId == id
    {
      if id in entries then Some(entries[id]) else None
    }

    /**
     * The filter both searches share: walk the entries in the map's
     * unspecified order and keep those whose label or definition in the
     * language contains the term.
     */
    method Search(lang: Language, term: string) returns (r: seq<LemmaEntry>, ghost keys: seq<string>)
      ensures Distinct(keys) && (set k | k in keys) == entries.Keys && |keys| == |entries|
      ensures r == Hits(entries, keys, lang, term)
      ensures forall e :: e in r <==> Mentions(e, lang, term) && exists k :: k in entries && entries[k] == e
    {
      var order := Collect(entries.Keys);
      keys := order;
      r := [];
      for i := 0 to |order|
        invariant r == Hits(entries, order[..i], lang, term)
      {
        assert order[..i + 1][..i] == order[..i];
        if Mentions(entries[order[i]], lang, term) {
          r := r + [entries[order[i]]];
        }
      }
      assert order[..|order|] == order;
      forall e
        ensures e in r <==> Mentions(e, lang, term) && exists k :: k in entries && entries[k] == e
      {
        HitsMembers(entries, order, lang, term, e);
      }
    }

    /** `search_by_german`: the entries whose German label or German definition contains the term. */
    method SearchByGerman(term: string) returns (r: seq<LemmaEntry>, ghost keys: seq<string>)
      ensures Distinct(keys) && (set k | k in keys) == entries.Keys && |keys| == |entries|
      ensures r == Hits(entries, keys, German, term)
      ensures forall e :: e in r <==> Mentions(e, German, term) && exists k :: k in entries && entries[k] == e
      ensures |r| <= |entries|
    {
      r, keys := Search(German, term);
    }

    /** `search_by_english`: the entries whose English label or English definition contains the term. */
    method SearchByEnglish(term: string) returns (r: seq<LemmaEntry>, ghost keys: seq<string>)
      ensures Distinct(keys) && (set k | k in keys) == entries.Keys && |keys| == |entries|
      ensures r == Hits(entries, keys, English, term)
      ensures forall e :: e in r <==> Mentions(e, English, term) && exists k :: k in entries && entries[k] == e
      ensures |r| <= |entries|
    {
      r, keys := Search(English, term);
    }

    /** `get_all_entries`: one entry per stored id, in the map's unspecified order. */
    method GetAllEntries() returns (r: seq<LemmaEntry>, ghost keys: seq<string>)
      ensures Distinct(keys) && (set k | k in keys) == entries.Keys
      ensures r == Values(entries, keys)
      ensures |r| == |entries|
    {
      var order := Collect(entries.Keys);
      keys := order;
      r := [];
      for i := 0 to |order|
        invariant r == Values(entries, order[..i])
      {
        r := r + [entries[order[i]]];
      }
      assert order[..|order|] == order;
    }
  }

  /** After `add_entry`, looking the id up gives the entry back; every other id keeps its entry. */
  method AddThenGet(store: KnotenlexikonStore, e: LemmaEntry, other: string)
    requires other != e.canonicalId
    modifies store
    ensures store.GetEntry(e.canonicalId) == Some(e)
    ensures store.GetEntry(other) == old(store.GetEntry(other))
  {
    store.AddEntry(e);
  }

  /** A new store finds the lemma "Knoten" in its German texts. */
  method KnotenIsFound() returns (r: seq<LemmaEntry>)
    ensures |r| > 0
    ensures DefaultLemmas()[0] in r
  {
    var store := new KnotenlexikonStore();
    ghost var keys;
    r, keys := store.SearchByGerman("Knoten");
    DefaultStoreContents();
    DefaultMentionsKnoten();
  }

  /** A new store has the first default lemma under its id, with its English and German labels. */
  method DefaultEngineEntry() returns (r: Option<LemmaEntry>)
    ensures r.Some?
    ensures r.value.englishLabel == "NeuroNodePath Engine"
    ensures r.value.germanLabel == "NeuroKnotenpfad-Suchmaschine"
  {
    var store := new KnotenlexikonStore();
    DefaultStoreContents();
    r := store.GetEntry("neuro_node_path_engine");
  }
}
