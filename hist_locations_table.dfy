/**
 * The HIST_LOCATIONS table object: its insert, which runs the relinking rule
 * against the database step by step, and the cache behind getInstance.
 */
module HistLocationsTable {
  import opened Ids
  import opened HistLocationsSpec

  /** The SQL data type of a table's id columns. */
  datatype IdType = IdType(sqlName: string)

  /** The database as the persistence manager exposes it to a table. */
  class PersistenceManager {
    var histLocations: seq<HistRow>
    var thingsLocations: set<ThingLocation>
    var locations: set<Id>

    /** The tables as one value, for stating what an operation does. */
    function Snapshot(): State
      reads this
    {
      State(histLocations, thingsLocations, locations)
    }

    /**
     * Only builds an initial database with empty tables and the given
     * Locations. The real persistence manager is external, and nothing in
     * the repository corresponds to this constructor.
     */
    constructor (existing: set<Id>)
      ensures Snapshot() == State([], {}, existing)
    {
      histLocations, thingsLocations, locations := [], {}, existing;
    }

    /** Insert a HIST_LOCATIONS row. */
    method AppendHistLocation(row: HistRow)
      modifies this`histLocations
      ensures histLocations == old(histLocations) + [row]
    {
      histLocations := histLocations + [row];
    }

    /** The query for a row of `thing` whose time is strictly greater than `time`. */
    method FindLater(thing: Id, time: int) returns (found: bool)
      ensures found <==> HasLater(histLocations, thing, time)
    {
      var i := 0;
      while i < |histLocations|
        invariant 0 <= i <= |histLocations|
        invariant forall j :: 0 <= j < i ==> !(histLocations[j].thingId == thing && histLocations[j].time > time)
      {
        if histLocations[i].thingId == thing && histLocations[i].time > time {
          return true;
        }
        i := i + 1;
      }
      return false;
    }

    /** Delete every THINGS_LOCATIONS row of `thing`. */
    method DeleteLinks(thing: Id)
      modifies this`thingsLocations
      ensures thingsLocations == Unlink(old(thingsLocations), thing)
    {
      thingsLocations := Unlink(thingsLocations, thing);
    }

    /** Insert one THINGS_LOCATIONS row. */
    method InsertLink(thing: Id, location: Id)
      modifies this`thingsLocations
      ensures thingsLocations == old(thingsLocations) + {ThingLocation(thing, location)}
    {
      thingsLocations := thingsLocations + {ThingLocation(thing, location)};
    }

    /** Whether a Location with this id exists. */
    method LocationExists(id: Id) returns (b: bool)
      ensures b <==> id in locations
    {
      b := id in locations;
    }
  }

  class AbstractTableHistLocations {
    const idType: IdType

    constructor (idType: IdType)
      ensures this.idType == idType
    {
      this.idType := idType;
    }

    /**
     * Insert a HistoricalLocation and, when it is the newest of its Thing,
     * make its Locations the Thing's current ones. The new database state and
     * the result are those of HistLocationsSpec.Insert, whose lemmas carry the
     * properties; the table lookup also goes through the instance cache.
     */
    method InsertIntoDatabase(pm: PersistenceManager, cache: InstanceCache, histLoc: HistLocation)
        returns (r: Result<bool>)
      requires cache.Valid()
      modifies pm, cache
      ensures pm.Snapshot() == Insert(old(pm.Snapshot()), histLoc).state
      ensures r == Insert(old(pm.Snapshot()), histLoc).result
      ensures cache.Valid() && cache.instance != null
      ensures old(cache.instance) == null ==> cache.instanceIdType == Some(idType)
      ensures old(cache.instance) != null ==>
                cache.instance == old(cache.instance) && cache.instanceIdType == old(cache.instanceIdType)
    {
      pm.AppendHistLocation(RowOf(histLoc));
      var thingId := histLoc.thing;
      var thl := cache.GetInstance(idType);
      var newTime := histLoc.time;
      var later := pm.FindLater(thingId, newTime);
      if !later {
        pm.DeleteLinks(thingId);
        r := LinkLocations(pm, thingId, histLoc.locations);
        return;
      }
      return Ok(true);
    }

    /**
     * The loop that links the Thing to each Location in turn, throwing
     * NoSuchEntity at the first entry that has no id or names no Location.
     */
    method LinkLocations(pm: PersistenceManager, thingId: Id, locs: seq<LocationRef>) returns (r: Result<bool>)
      modifies pm
      ensures pm.histLocations == old(pm.histLocations) && pm.locations == old(pm.locations)
      ensures pm.thingsLocations ==
                old(pm.thingsLocations) + LinkRows(thingId, locs[..FirstMissing(locs, old(pm.locations))])
      ensures r == if FirstMissing(locs, old(pm.locations)) == |locs| then Ok(true)
                   else Err(NoSuchEntity(NoIdMessage))
    {
      for i := 0 to |locs|
        invariant pm.histLocations == old(pm.histLocations) && pm.locations == old(pm.locations)
        invariant pm.thingsLocations == old(pm.thingsLocations) + LinkRows(thingId, locs[..i])
        invariant forall j :: 0 <= j < i ==> Exists(locs[j], pm.locations)
      {
        var l := locs[i];
        var found := false;
        if l.id.Some? {
          found := pm.LocationExists(l.id.value);
        }
        if !found {
          assert FirstMissing(locs, pm.locations) == i;
          return Err(NoSuchEntity(NoIdMessage));
        }
        LinkRowsSnoc(thingId, locs[..i], l);
        assert locs[..i + 1] == locs[..i] + [l];
        pm.InsertLink(thingId, l.id.value);
      }
      assert FirstMissing(locs, pm.locations) == |locs|;
      assert locs[..|locs|] == locs;
      return Ok(true);
    }
  }

  /**
   * The static fields INSTANCE and INSTANCE_ID_TYPE, as an object shared by
   * every caller of GetInstance.
   */
  class InstanceCache {
    var instance: AbstractTableHistLocations?
    var instanceIdType: Option<IdType>

    /** Both fields are set together, and the cached table has the cached id type. */
    ghost predicate Valid()
      reads this
    {
      (instance == null <==> instanceIdType.None?) &&
      (instance != null ==> instance.idType == instanceIdType.value)
    }

    constructor ()
      ensures Valid() && instance == null
    {
      instance, instanceIdType := null, None;
    }

    /**
     * The first call caches a new table for `idType`; later calls with an equal
     * id type get the cached table, others a new table and the cache stays.
     */
    method GetInstance(idType: IdType) returns (t: AbstractTableHistLocations)
      requires Valid()
      modifies this
      ensures Valid()
      ensures t.idType == idType
      ensures old(instance) == null ==> fresh(t) && instance == t && instanceIdType == Some(idType)
      ensures old(instance) != null && old(instanceIdType) == Some(idType) ==>
                t == old(instance) && unchanged(this)
      ensures old(instance) != null && old(instanceIdType) != Some(idType) ==>
                fresh(t) && unchanged(this)
    {
      if instance == null {
        instanceIdType := Some(idType);
        instance := new AbstractTableHistLocations(idType);
        return instance;
      }
      if instanceIdType.value == idType {
        return instance;
      }
      t := new AbstractTableHistLocations(idType);
    }
  }
}
