/** The models behind one slave: a unit's request goes to its model, a broadcast to all of them. */
module Dispatch {
  import opened Bytes
  import opened Adus
  import opened Pdu
  import opened Serving
  import opened Exchange

  type UnitId = n: nat | n < 0x100

  /** A model, its declared ranges and its tables. */
  datatype Station = Station(ranges: Ranges, store: Store)

  predicate AllWhole(stations: map<UnitId, Station>) { forall u :: u in stations ==> Whole(stations[u].store) }

  /** What a request leaves of a model. */
  function Served(request: Adu, station: Station): (r: Station)
    requires Whole(station.store) && Serviceable(request)
    ensures Whole(r.store) && r.ranges == station.ranges
  {
    ServedWhole(station.ranges, station.store, request);
    station.(store := Serve(station.ranges, station.store, request).1)
  }

  lemma ServedWhole(ranges: Ranges, s: Store, request: Adu)
    requires Whole(s) && Serviceable(request)
    ensures Whole(Serve(ranges, s, request).1)
  {}

  /** What it answers. */
  function Answer(request: Adu, station: Station): Option<Adu>
    requires Whole(station.store) && Serviceable(request)
  {
    Serve(station.ranges, station.store, request).0
  }

  /** Whether a request is for a model. */
  predicate IsFor(request: Adu, u: UnitId) { IsBroadcast(request) || UnitOf(request) == u }

  predicate IsBroadcast(request: Adu) { request.unit == 0 }

  function UnitOf(request: Adu): UnitId { request.unit as nat }

  /** The response that is sent, if any, and the models afterwards. */
  ghost predicate Processed(
    stations: map<UnitId, Station>, request: Adu, response: Option<Adu>, after: map<UnitId, Station>)
    requires AllWhole(stations) && Serviceable(request)
  {
    && (forall u :: u in after <==> u in stations)
    && (forall u :: u in stations ==> after[u] == if IsFor(request, u) then Served(request, stations[u]) else stations[u])
    && var u := UnitOf(request);
       response == if !IsBroadcast(request) && u in stations then Answer(request, stations[u]) else None
  }

  /** One model after another, in whatever order. */
  method Each<V>(models: map<UnitId, V>, units: set<UnitId>, handle: V --> V) returns (after: map<UnitId, V>)
    requires units <= models.Keys && forall u :: u in units ==> handle.requires(models[u])
    ensures forall u :: u in after <==> u in models
    ensures forall u :: u in models ==> after[u] == if u in units then handle(models[u]) else models[u]
  {
    after := models;
    var todo := units;
    while todo != {}
      invariant todo <= units
      invariant forall u :: u in after <==> u in models
      invariant forall u :: u in models ==>
        after[u] == if u in units && u !in todo then handle(models[u]) else models[u]
      decreases |todo|
    {
      var u :| u in todo;
      after := after[u := handle(models[u])];
      todo := todo - {u};
    }
  }

  /** The models a request is for handle it; the responses to a broadcast go nowhere. */
  method ProcessFrame(stations: map<UnitId, Station>, request: Adu)
    returns (response: Option<Adu>, after: map<UnitId, Station>)
    requires AllWhole(stations) && Serviceable(request)
    ensures Processed(stations, request, response, after)
  {
    var units := set u | u in stations && IsFor(request, u);
    after := Each(stations, units, (station: Station) requires Whole(station.store) => Served(request, station));
    response := None;
    if !IsBroadcast(request) && UnitOf(request) in stations {
      response := Answer(request, stations[UnitOf(request)]);
    }
  }

  lemma ServedCommand(transaction: Option<u16>, unit: byte, c: Command, station: Station)
    requires InLimit(c) && Whole(station.store)
    ensures var request := RequestOf(transaction, unit, c);
      && Serviceable(request)
      && Served(request, station).store == if Allowed(station.ranges, c) then Written(c, station.store) else station.store
  {
    if Allowed(station.ranges, c) {
      CarriedOut(transaction, unit, c, station.ranges, station.store);
    } else {
      Refused(transaction, unit, c, station.ranges, station.store);
    }
  }

  /** BROADCAST. A command to unit 0 is carried out by exactly the models whose ranges allow it, and nothing
      is sent. */
  lemma BroadcastCarriedOut(
    transaction: Option<u16>, c: Command, stations: map<UnitId, Station>, response: Option<Adu>, after: map<UnitId, Station>)
    requires InLimit(c) && AllWhole(stations) && Serviceable(RequestOf(transaction, 0, c))
    requires Processed(stations, RequestOf(transaction, 0, c), response, after)
    ensures response == None && forall u :: u in after <==> u in stations
    ensures forall u :: u in stations ==>
      && after[u].ranges == stations[u].ranges
      && after[u].store == if Allowed(stations[u].ranges, c) then Written(c, stations[u].store) else stations[u].store
  {
    forall u | u in stations
      ensures after[u].ranges == stations[u].ranges
      ensures after[u].store == if Allowed(stations[u].ranges, c) then Written(c, stations[u].store) else stations[u].store
    {
      ServedCommand(transaction, 0, c, stations[u]);
      assert IsFor(RequestOf(transaction, 0, c), u);
    }
  }

  /** A model by itself does and answers what the handlers do. */
  lemma HandlersDecide(request: Adu, station: Station)
    requires Whole(station.store) && Serviceable(request)
    ensures (Answer(request, station), Served(request, station).store) == Serve(station.ranges, station.store, request)
    ensures Served(request, station).ranges == station.ranges
  {}

  /** ONE UNIT. A request to a unit other than 0 changes no other model; if there is no model for it nothing is
      sent, and otherwise what that model answers. */
  lemma OneUnitServed(
    stations: map<UnitId, Station>, request: Adu, unit: UnitId, response: Option<Adu>, after: map<UnitId, Station>)
    requires AllWhole(stations) && Serviceable(request) && request.unit as nat == unit != 0
    requires Processed(stations, request, response, after)
    ensures forall u :: u in after <==> u in stations
    ensures forall u :: u in stations && u != unit ==> after[u] == stations[u]
    ensures unit !in stations ==> response == None
    ensures unit in stations ==>
      response == Answer(request, stations[unit]) && after[unit] == Served(request, stations[unit])
  {}
}
