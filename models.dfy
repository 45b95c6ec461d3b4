/** The `ZapConfig` model: one document per domain holding the WhatsApp
    number shown for that domain, in the `zap_configs` collection. */
module Models {
  import opened Wrappers

  /** A `Date`, as milliseconds since the epoch. */
  type Time = int

  /** A `ZapConfig` document. */
  datatype ZapConfig = ZapConfig(domain: string, numero: string, updatedAt: Time)

  /** Why schema validation refuses a document. */
  datatype ValidationError = DomainRequired

  /** Building a document through the schema: `domain` is required (a
      missing or empty string fails validation), `numero` defaults to `""`
      and `updatedAt` to the creation time `now`. */
  function NewZapConfig(domain: Option<string>, numero: Option<string>, updatedAt: Option<Time>,
                        now: Time): (r: Result<ZapConfig, ValidationError>)
    ensures r.Success? <==> domain.Some? && domain.value != ""
    ensures r.Failure? ==> r.error == DomainRequired
    ensures r.Success? ==> r.value.domain == domain.value && r.value.domain != ""
    ensures r.Success? ==> r.value.numero == (if numero.Some? then numero.value else "")
    ensures r.Success? ==> r.value.updatedAt == (if updatedAt.Some? then updatedAt.value else now)
  {
    if domain.None? || domain.value == "" then Failure(DomainRequired)
    else
      var n := if numero.Some? then numero.value else "";
      var t := if updatedAt.Some? then updatedAt.value else now;
      Success(ZapConfig(domain.value, n, t))
  }

  /** The collection as a map from domain to document. Since `domain` is
      unique, filing each document under its own domain loses nothing; since
      it is required, no document is filed under the empty domain. */
  predicate TableValid(t: map<string, ZapConfig>) {
    forall d :: d in t ==> t[d].domain == d && d != ""
  }

  /** The documents whose `domain` field is `d`. */
  function WithDomain(t: map<string, ZapConfig>, d: string): set<string> {
    set k | k in t && t[k].domain == d
  }

  /** In a valid collection every domain has at most one document, the one
      filed under it, and no document has an empty domain. */
  lemma TableValidUnique(t: map<string, ZapConfig>, d: string)
    requires TableValid(t)
    ensures WithDomain(t, d) == if d in t then {d} else {}
    ensures |WithDomain(t, d)| <= 1
    ensures WithDomain(t, "") == {}
  {
    if d in t {
      assert d in WithDomain(t, d);
    }
  }

  /** `findOne({ domain })` on the map: the document filed under `domain`. */
  function Find(t: map<string, ZapConfig>, domain: string): (r: Option<ZapConfig>)
    ensures r.Some? <==> domain in t
  {
    if domain in t then Some(t[domain]) else None
  }

  /** Looking a domain up by key finds exactly the document whose `domain`
      field matches, which is what the query by field does. */
  lemma FindByField(t: map<string, ZapConfig>, domain: string, c: ZapConfig)
    requires TableValid(t)
    ensures Find(t, domain) == Some(c) <==> c in t.Values && c.domain == domain
  {
    if c in t.Values && c.domain == domain {
      var k :| k in t && t[k] == c;
      assert k == domain;
    }
  }

  /** `findOneAndUpdate({ domain }, { numero, updatedAt: now }, { upsert: true })`:
      sets both fields of the document filed under `domain`, or inserts a new
      one there. */
  function Upsert(t: map<string, ZapConfig>, domain: string, numero: string, now: Time): map<string, ZapConfig> {
    if domain in t then t[domain := t[domain].(numero := numero, updatedAt := now)]
    else t[domain := ZapConfig(domain, numero, now)]
  }

  /** After an upsert into a valid collection with a non-empty domain the
      collection is still valid, `domain` holds the given number and time,
      one document is added only when none was there, and every other
      document is untouched. */
  lemma UpsertSpec(t: map<string, ZapConfig>, domain: string, numero: string, now: Time)
    requires TableValid(t) && domain != ""
    ensures var r := Upsert(t, domain, numero, now);
      && TableValid(r)
      && r[domain] == ZapConfig(domain, numero, now)
      && r.Keys == t.Keys + {domain}
      && |r| == (if domain in t then |t| else |t| + 1)
      && (forall k :: k != domain ==> (k in r <==> k in t) && (k in t ==> r[k] == t[k]))
  {
    var r := Upsert(t, domain, numero, now);
    if domain !in t {
      assert r.Keys == t.Keys + {domain};
    } else {
      assert r.Keys == t.Keys;
    }
  }

  /** Without the guard on the domain an upsert can file a document under the
      empty domain: the collection's validity rests on the callers. */
  lemma UpsertEmptyDomain(t: map<string, ZapConfig>, numero: string, now: Time)
    ensures !TableValid(Upsert(t, "", numero, now))
  {
    assert "" in Upsert(t, "", numero, now);
  }

  /** `deleteOne({ domain })`. */
  function Remove(t: map<string, ZapConfig>, domain: string): map<string, ZapConfig> {
    t - {domain}
  }

  /** After a delete `domain` is gone, every other document is untouched,
      validity is kept, and deleting again changes nothing. */
  lemma RemoveSpec(t: map<string, ZapConfig>, domain: string)
    ensures var r := Remove(t, domain);
      && domain !in r
      && (forall k :: k != domain ==> (k in r <==> k in t) && (k in t ==> r[k] == t[k]))
      && (TableValid(t) ==> TableValid(r))
      && Remove(r, domain) == r
      && (domain !in t ==> r == t)
      && |r| == (if domain in t then |t| - 1 else |t|)
  {
    var r := Remove(t, domain);
    assert Remove(r, domain) == r;
    if domain !in t {
      assert r == t;
    } else {
      assert t.Keys == r.Keys + {domain};
    }
  }

  /** Whether the database answers. A store that fails makes the awaited
      call throw, and nothing is written. */
  datatype Connection = Available | Unavailable

  datatype StoreError = StoreUnavailable

  /** The `zap_configs` collection, changed in place by the store calls. */
  class ZapConfigs {
    var docs: map<string, ZapConfig>

    predicate Valid()
      reads this
    {
      TableValid(docs)
    }

    constructor()
      ensures docs == map[] && Valid()
    {
      docs := map[];
    }

    /** `ZapConfig.findOne({ domain })`. */
    method FindOne(domain: string, conn: Connection) returns (r: Result<Option<ZapConfig>, StoreError>)
      ensures conn.Unavailable? ==> r == Failure(StoreUnavailable)
      ensures conn.Available? ==> r == Success(Find(docs, domain))
    {
      if conn.Unavailable? {
        return Failure(StoreUnavailable);
      }
      if domain in docs {
        r := Success(Some(docs[domain]));
      } else {
        r := Success(None);
      }
    }

    /** `ZapConfig.findOneAndUpdate({ domain }, { numero, updatedAt: now },
        { upsert: true, new: true })`: answers the document after the update. */
    method FindOneAndUpdate(domain: string, numero: string, now: Time, conn: Connection)
      returns (r: Result<ZapConfig, StoreError>)
      modifies this
      ensures conn.Unavailable? ==> r == Failure(StoreUnavailable) && docs == old(docs)
      ensures conn.Available? ==> docs == Upsert(old(docs), domain, numero, now) && r == Success(docs[domain])
      ensures old(Valid()) && domain != "" ==> Valid()
    {
      if conn.Unavailable? {
        return Failure(StoreUnavailable);
      }
      if domain in docs {
        docs := docs[domain := docs[domain].(numero := numero, updatedAt := now)];
      } else {
        docs := docs[domain := ZapConfig(domain, numero, now)];
      }
      r := Success(docs[domain]);
      if old(Valid()) && domain != "" {
        UpsertSpec(old(docs), domain, numero, now);
      }
    }

    /** `ZapConfig.deleteOne({ domain })`: answers how many documents went. */
    method DeleteOne(domain: string, conn: Connection) returns (r: Result<nat, StoreError>)
      modifies this
      ensures conn.Unavailable? ==> r == Failure(StoreUnavailable) && docs == old(docs)
      ensures conn.Available? ==> docs == Remove(old(docs), domain)
      ensures conn.Available? ==> r == Success(if domain in old(docs) then 1 else 0)
      ensures old(Valid()) ==> Valid()
    {
      if conn.Unavailable? {
        return Failure(StoreUnavailable);
      }
      r := Success(if domain in docs then 1 else 0);
      docs := docs - {domain};
    }
  }
}
