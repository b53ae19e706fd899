/** Which handlings a message starts: one goroutine for each output of each route. */
module Dispatch {

  datatype Route = Route(outputs: seq<string>, template: string)

  /** The routes by name, the outputs that are enabled and the templates that are set up. */
  datatype Config = Config(routes: map<string, Route>, outputs: set<string>, templates: set<string>)

  datatype Handling = Handling(route: string, output: string)

  /** How many handlings of a message there are to be for an output of a route: as many as
      the route lists it, unless the output is off or the template is missing. */
  function Due(c: Config, h: Handling): nat {
    if h.route in c.routes && h.output in c.outputs && c.routes[h.route].template in c.templates
    then multiset(c.routes[h.route].outputs)[h.output]
    else 0
  }

  method HandleRoute(c: Config, routeName: string) returns (started: seq<Handling>)
    ensures forall h :: multiset(started)[h] == if h.route == routeName then Due(c, h) else 0
    ensures forall h | h in started :: h.route == routeName
    ensures forall output :: multiset(started)[Handling(routeName, output)]
              == if routeName in c.routes && c.routes[routeName].template in c.templates && output in c.outputs
                 then multiset(c.routes[routeName].outputs)[output] else 0
  {
    started := [];
    if routeName !in c.routes {
      return;
    }
    var r := c.routes[routeName];
    if |r.outputs| == 0 {
      return;
    }
    for i := 0 to |r.outputs|
      invariant forall h | h in started :: h.route == routeName
      invariant forall h :: multiset(started)[h] ==
                  if h.route == routeName && h.output in c.outputs && r.template in c.templates
                  then multiset(r.outputs[..i])[h.output] else 0
    {
      assert r.outputs[..i + 1] == r.outputs[..i] + [r.outputs[i]];
      if r.outputs[i] !in c.outputs {
        continue;
      }
      if r.template !in c.templates {
        continue;
      }
      started := started + [Handling(routeName, r.outputs[i])];
    }
    assert r.outputs[..|r.outputs|] == r.outputs;
  }

  /** Every message starts exactly the handlings due, in whatever order the map yields the
      routes. */
  method Handle(c: Config, order: seq<string>) returns (started: seq<Handling>)
    requires forall name :: name in order <==> name in c.routes
    requires forall i, j | 0 <= i < j < |order| :: order[i] != order[j]
    ensures forall h :: multiset(started)[h] == Due(c, h)
    ensures forall route, output :: multiset(started)[Handling(route, output)]
              == if route in c.routes && c.routes[route].template in c.templates && output in c.outputs
                 then multiset(c.routes[route].outputs)[output] else 0
  {
    started := [];
    for i := 0 to |order|
      invariant forall h :: multiset(started)[h] == if h.route in order[..i] then Due(c, h) else 0
    {
      assert order[..i + 1] == order[..i] + [order[i]];
      assert order[i] !in order[..i];
      var more := HandleRoute(c, order[i]);
      started := started + more;
    }
    assert order[..|order|] == order;
  }
}
