/**
 * The in-memory ephemeral secret store: a mutable map from secret id to
 * record, and the sweep that deletes every record that is expired or has
 * used up its view budget (src/app/lib/store.ts; the route handler in
 * src/app/api/secrets/route.ts declares a second, separate copy of both).
 */
module Store {

  /** Secret ids (UUID strings in the source). */
  type Id = string

  /** Milliseconds in a day: `setDate(getDate() + n)` moves a date by n days. */
  const DAY_MS: int := 86_400_000

  /** One stored secret. `expiryDate` is a point in time in milliseconds. */
  datatype Record = Record(secret: string, expiryDate: int, maxViews: int, views: int)

  /** The first deletion trigger: the expiry date lies strictly before `now`. */
  predicate Expired(r: Record, now: int)
  {
    r.expiryDate < now
  }

  /** The second deletion trigger: the view budget is used up. */
  predicate Exhausted(r: Record)
  {
    r.views >= r.maxViews
  }

  /**
   * The sweep's deletion test: either trigger suffices, and a record that
   * is not doomed has not expired and has views left.
   */
  predicate Doomed(r: Record, now: int): (doomed: bool)
    ensures r.expiryDate < now ==> doomed
    ensures r.views >= r.maxViews ==> doomed
    ensures !doomed ==> r.expiryDate >= now && r.views < r.maxViews
  {
    Expired(r, now) || Exhausted(r)
  }

  /**
   * The store as the sweep leaves it at time `now`: exactly the records that
   * are neither expired nor exhausted, each with all four fields unchanged.
   */
  function Swept(m: map<Id, Record>, now: int): (r: map<Id, Record>)
    ensures r.Keys <= m.Keys
    ensures forall id :: id in r ==> r[id] == m[id]
    ensures forall id :: id in r ==> r[id].expiryDate >= now && r[id].views < r[id].maxViews
    ensures forall id :: id in m && m[id].expiryDate >= now && m[id].views < m[id].maxViews ==> id in r
  {
    map id | id in m && !Doomed(m[id], now) :: m[id]
  }

  /**
   * The store part-way through the sweep: the keys still in `pending` are
   * untouched, the others have been swept.
   */
  ghost function PartlySwept(m: map<Id, Record>, now: int, pending: set<Id>): map<Id, Record>
  {
    map id | id in m && (id in pending || !Doomed(m[id], now)) :: m[id]
  }

  /** No two positions of `s` hold the same id. */
  ghost predicate Distinct(s: seq<Id>)
  {
    forall i, j :: 0 <= i < j < |s| ==> s[i] != s[j]
  }

  /** Sweeping twice at the same instant removes nothing more. */
  lemma SweptIdempotent(m: map<Id, Record>, now: int)
    ensures Swept(Swept(m, now), now) == Swept(m, now)
  {
  }

  /** A record whose expiry date is exactly `now` is kept: expiry is a strict `<`. */
  lemma ExpiryBoundaryKept(m: map<Id, Record>, now: int, id: Id)
    requires id in m && m[id].expiryDate == now && m[id].views < m[id].maxViews
    ensures id in Swept(m, now) && Swept(m, now)[id] == m[id]
  {
  }

  /** The view trigger works on its own: an exhausted record goes even if unexpired. */
  lemma ExhaustedRemoved(m: map<Id, Record>, now: int, id: Id)
    requires id in m && m[id].expiryDate >= now && m[id].views >= m[id].maxViews
    ensures id !in Swept(m, now)
  {
  }

  /** The expiry trigger works on its own: an expired record goes even with views left. */
  lemma ExpiredRemoved(m: map<Id, Record>, now: int, id: Id)
    requires id in m && m[id].expiryDate < now && m[id].views < m[id].maxViews
    ensures id !in Swept(m, now)
  {
  }

  /**
   * Corollary of Swept's contract: the sweep's key set is exactly the old
   * keys whose records pass the keep test.
   */
  lemma SweptKeys(m: map<Id, Record>, now: int)
    ensures Swept(m, now).Keys == set id | id in m && !Doomed(m[id], now)
  {
  }

  /**
   * One store instance. The source has two module-level maps of this shape
   * (one exported by src/app/lib/store.ts, one private to the create route),
   * each with its own sweep: two independent objects of this class.
   */
  class SecretStore {
    var secrets: map<Id, Record>

    /** `const secretsStore = {}` */
    constructor ()
      ensures secrets == map[]
    {
      secrets := map[];
    }

    /**
     * `cleanupExpiredSecrets`: walks a snapshot of the keys taken before any
     * deletion and deletes, in place, each record that is expired or
     * exhausted at `now`. `examined` is the order in which the keys were
     * visited: every key of the old store exactly once.
     */
    method Cleanup(now: int) returns (ghost examined: seq<Id>)
      modifies this
      ensures secrets == Swept(old(secrets), now)
      ensures Distinct(examined)
      ensures forall id :: id in examined <==> id in old(secrets)
    {
      var pending := secrets.Keys;
      examined := [];
      while pending != {}
        invariant pending <= old(secrets).Keys
        invariant secrets == PartlySwept(old(secrets), now, pending)
        invariant Distinct(examined)
        invariant forall id :: id in examined <==> id in old(secrets) && id !in pending
        decreases pending
      {
        var id :| id in pending;
        if Doomed(secrets[id], now) {
          secrets := secrets - {id};
        }
        pending := pending - {id};
        examined := examined + [id];
      }
      assert secrets == Swept(old(secrets), now);
    }
  }
}
