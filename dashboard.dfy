/** The administrator dashboard: the load of the dashboard data with its
    loading and error states, the accordion of sidebar modules, the class a
    delivery status is drawn with, and logout. */
module DashboardScreen {
  import opened Wrappers
  import opened Js

  datatype Delivery = Delivery(route: string, status: string, time: string)

  /** One bar of the route comparison chart. */
  datatype RouteEfficiency = RouteEfficiency(name: string, efficiency: int)

  /** The `data` object of a reply to `POST /api/dashboard`. */
  datatype DashData = DashData(
    onTimeDelivery: int, avgDeliveryTime: int, fuelConsumption: int, mileagePerRoute: int,
    weeklyPerformance: seq<int>, routeComparison: seq<RouteEfficiency>,
    deliveryStatus: seq<Delivery>)

  /** The body of a 2xx reply to `POST /api/dashboard`; `data` is absent for non-admins. */
  datatype DashReply = DashReply(success: bool, data: Option<DashData>)

  const LoadFailed := "Error al cargar los datos"
  const ConnectionError := "Error de conexión con el servidor"

  /** `toggleModule(m)`: `openModule === m ? null : m`. */
  function Toggle(open: Option<string>, m: string): (r: Option<string>)
    ensures r == Some(m) <==> open != Some(m)
    ensures r != Some(m) ==> r == None
  {
    if open == Some(m) then None else Some(m)
  }

  /** Toggling a module that is not open, and then toggling it again, leaves
      every module closed. */
  lemma ToggleTwiceCloses(open: Option<string>, m: string)
    requires open != Some(m)
    ensures Toggle(Toggle(open, m), m) == None
  {
  }

  /** Opening a module closes whichever other module was open. */
  lemma ToggleClosesOthers(open: Option<string>, m: string, other: string)
    requires other != m
    ensures Toggle(open, m) != Some(other)
  {
  }

  /** `getStatusClass`. */
  function StatusClass(status: string): (c: string)
    ensures c == "status-on-time" <==> status == "A tiempo"
    ensures c != "status-on-time" ==> c == "status-delayed"
  {
    if status == "A tiempo" then "status-on-time" else "status-delayed"
  }

  /** The class of every row of the delivery table, in order. */
  function StatusClasses(ds: seq<Delivery>): (cs: seq<string>)
    ensures |cs| == |ds|
    ensures forall i :: 0 <= i < |ds| ==> cs[i] == StatusClass(ds[i].status)
  {
    seq(|ds|, i requires 0 <= i < |ds| => StatusClass(ds[i].status))
  }

  /** What the component renders, by the order of its early returns. */
  datatype View = Spinner | ErrorPanel(message: string) | Panel(data: DashData)

  /** The component's state, with the session storage and the current path it writes. */
  class Dashboard {
    var dashboardData: Option<DashData>
    var loading: bool
    var error: string
    var openModule: Option<string>
    var storage: map<string, string>
    var location: string

    /** The panel is never drawn without data. */
    predicate Valid()
      reads this
    {
      !loading && error == "" ==> dashboardData.Some?
    }

    function Render(): (v: View)
      reads this
      requires Valid()
      ensures loading <==> v == Spinner
      ensures !loading && error != "" ==> v == ErrorPanel(error)
      ensures !loading && error == "" ==> v == Panel(dashboardData.value)
    {
      if loading then Spinner
      else if error != "" then ErrorPanel(error)
      else Panel(dashboardData.value)
    }

    constructor (storage0: map<string, string>)
      ensures Valid() && loading && dashboardData.None? && error == "" && openModule.None?
      ensures storage == storage0 && location == "/dashboard"
    {
      dashboardData := None;
      loading := true;
      error := "";
      openModule := None;
      storage := storage0;
      location := "/dashboard";
    }

    /** The synchronous start of `fetchDashboardData`: loading, and the request
        names the stored user (`getItem` of a missing key is null). */
    method FetchStart() returns (username: Option<string>)
      modifies this
      ensures Valid() && loading
      ensures username == (if "username" in storage then Some(storage["username"]) else None)
      ensures dashboardData == old(dashboardData) && error == old(error)
      ensures openModule == old(openModule) && storage == old(storage) && location == old(location)
    {
      loading := true;
      username := if "username" in storage then Some(storage["username"]) else None;
    }

    /** The rest of `fetchDashboardData` as written: data is taken only from a
        successful reply that carries it; otherwise an error is set. A success
        does not clear an earlier error. */
    method FetchResolveAsWritten(o: HttpOutcome<DashReply>)
      requires Valid()
      modifies this
      ensures Valid() && !loading
      ensures o.Resolved? && o.body.success && o.body.data.Some? ==>
        dashboardData == o.body.data && error == old(error)
      ensures o.Resolved? && !(o.body.success && o.body.data.Some?) ==>
        dashboardData == old(dashboardData) && error == LoadFailed
      ensures o.Thrown? ==> dashboardData == old(dashboardData) && error == ConnectionError
      ensures openModule == old(openModule) && storage == old(storage) && location == old(location)
    {
      match o {
        case Resolved(reply) =>
          if reply.success && reply.data.Some? {
            dashboardData := reply.data;
          } else {
            error := LoadFailed;
          }
        case Thrown(_) =>
          error := ConnectionError;
      }
      loading := false;
    }

    /** `fetchDashboardData` with the error cleared when data arrives, so that
        "Reintentar" can leave the error panel. Otherwise as written. */
    method FetchResolve(o: HttpOutcome<DashReply>)
      requires Valid()
      modifies this
      ensures Valid() && !loading
      ensures o.Resolved? && o.body.success && o.body.data.Some? ==>
        dashboardData == o.body.data && error == "" && Render() == Panel(o.body.data.value)
      ensures o.Resolved? && !(o.body.success && o.body.data.Some?) ==>
        dashboardData == old(dashboardData) && error == LoadFailed && Render() == ErrorPanel(LoadFailed)
      ensures o.Thrown? ==>
        dashboardData == old(dashboardData) && error == ConnectionError && Render() == ErrorPanel(ConnectionError)
      ensures openModule == old(openModule) && storage == old(storage) && location == old(location)
    {
      match o {
        case Resolved(reply) =>
          if reply.success && reply.data.Some? {
            dashboardData := reply.data;
            error := "";
          } else {
            error := LoadFailed;
          }
        case Thrown(_) =>
          error := ConnectionError;
      }
      loading := false;
    }

    /** A click on a sidebar module. */
    method ToggleModule(m: string)
      modifies this
      ensures openModule == Toggle(old(openModule), m)
      ensures dashboardData == old(dashboardData) && loading == old(loading) && error == old(error)
      ensures storage == old(storage) && location == old(location)
    {
      openModule := if openModule == Some(m) then None else Some(m);
    }

    /** `handleLogout`: the whole session storage is cleared and the screen goes to `/login`. */
    method HandleLogout()
      modifies this
      ensures storage == map[] && location == "/login"
      ensures dashboardData == old(dashboardData) && loading == old(loading)
      ensures error == old(error) && openModule == old(openModule)
    {
      storage := map[];
      location := "/login";
    }
  }

  /** The first load fails on the network, the user presses "Reintentar" and
      the second load succeeds with `d`; `fixed` picks which resolution runs. */
  method RetryAfterFailure(d: DashData, fixed: bool) returns (v: View)
    ensures !fixed ==> v == ErrorPanel(ConnectionError)
    ensures fixed ==> v == Panel(d)
  {
    var screen := new Dashboard(map["username" := "app.megacero"]);
    var _ := screen.FetchStart();
    if fixed { screen.FetchResolve(Thrown(None)); } else { screen.FetchResolveAsWritten(Thrown(None)); }
    var _ := screen.FetchStart();
    var ok := Resolved(DashReply(true, Some(d)));
    if fixed { screen.FetchResolve(ok); } else { screen.FetchResolveAsWritten(ok); }
    v := screen.Render();
  }
}
