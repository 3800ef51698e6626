// The form of a commit: its values without spaces around them, and the identifiers that must follow from the stage's
// place in the route.
module CommitForm {
  import opened Options
  import opened TextSpaces
  import opened Routes
  import opened CanonicalRecord
  import opened EventJson
  import opened Progress

  // A value of the form without the spaces around it.
  function Trimmed(values: map<string, string>, name: string): string {
    Trim(ValueIn(values, name))
  }

  // ---- identifiers numbered along the route ----

  function RoleCount(s: seq<RouteNode>, role: string): (n: nat)
    ensures n <= |s|
  {
    if s == [] then 0 else RoleCount(s[..|s| - 1], role) + if s[|s| - 1].role == role then 1 else 0
  }

  // The first position of an id.
  function Place(s: seq<RouteNode>, id: string): (k: nat)
    ensures k <= |s| && (k < |s| ==> s[k].nodeId == id)
    ensures forall i :: 0 <= i < k ==> s[i].nodeId != id
  {
    if s == [] || s[0].nodeId == id then 0 else Place(s[1..], id) + 1
  }

  function FourDigits(n: nat): (digits: string)
    requires n <= 9999
    ensures |digits| == 4
  {
    [Digit(n / 1000), Digit(n / 100 % 10), Digit(n / 10 % 10), Digit(n % 10)]
  }

  // The number of the target among the nodes of its role on the walk, or nothing.
  function Numbered(s: seq<RouteNode>, target: RouteNode, prefix: string): string {
    var k := Place(s, target.nodeId);
    if k == |s| then ""
    else
      var n := RoleCount(s[..k + 1], target.role);
      if n == 0 || n > 9999 then "" else prefix + FourDigits(n)
  }

  ghost function Identifier(w: Workflow, target: RouteNode, role: string, prefix: string): string {
    if target.role != role || !exists s :: Complete(w, s) then "" else Numbered(OrderOf(w), target, prefix)
  }

  method NumberedRouteIdentifier(w: Workflow, target: RouteNode, role: string, prefix: string)
    returns (identifier: string)
    ensures identifier == Identifier(w, target, role, prefix)
  {
    hide Complete, Numbered, RoleCount, Place, FourDigits;
    if target.role != role {
      return "";
    }
    var ok, ordered, error := OrderedWorkflowNodes(w);
    if !ok {
      return "";
    }
    OrderIs(w, ordered);
    var transportSequence := 0;
    var targetFound := false;
    var i := 0;
    NothingCounted(ordered, role);
    while i < |ordered| && !targetFound
      invariant 0 <= i <= |ordered| && transportSequence == RoleCount(ordered[..i], role)
      invariant forall j :: 0 <= j < i - (if targetFound then 1 else 0) ==> ordered[j].nodeId != target.nodeId
      invariant targetFound ==> i > 0 && ordered[i - 1].nodeId == target.nodeId
      decreases |ordered| - i
    {
      CountNext(ordered, role, i);
      if ordered[i].role == role {
        transportSequence := transportSequence + 1;
      }
      if ordered[i].nodeId == target.nodeId {
        targetFound := true;
      }
      i := i + 1;
    }
    NumberedIs(ordered, target, prefix, if targetFound then i - 1 else |ordered|);
    if !targetFound || transportSequence <= 0 || transportSequence > 9999 {
      return "";
    }
    return prefix + FourDigits(transportSequence);
  }

  lemma OrderIs(w: Workflow, s: seq<RouteNode>)
    requires Complete(w, s)
    ensures OrderOf(w) == s
  {
    OrderedUnique(w, OrderOf(w), s);
  }

  lemma NothingCounted(s: seq<RouteNode>, role: string)
    ensures RoleCount(s[..0], role) == 0
  {}

  lemma CountNext(s: seq<RouteNode>, role: string, i: nat)
    requires i < |s|
    ensures RoleCount(s[..i + 1], role) == RoleCount(s[..i], role) + if s[i].role == role then 1 else 0
  {
    assert s[..i + 1][..i] == s[..i];
  }

  lemma NumberedIs(s: seq<RouteNode>, target: RouteNode, prefix: string, k: nat)
    requires k <= |s| && (k < |s| ==> s[k].nodeId == target.nodeId)
    requires forall j :: 0 <= j < k ==> s[j].nodeId != target.nodeId
    ensures Numbered(s, target, prefix) ==
      if k == |s| then ""
      else
        var n := RoleCount(s[..k + 1], target.role);
        if n == 0 || n > 9999 then "" else prefix + FourDigits(n)
  {
    hide RoleCount;
  }

  // ---- what the numbers are worth ----

  lemma {:induction false} CountMonotone(s: seq<RouteNode>, role: string, i: nat, j: nat)
    requires i <= j <= |s|
    ensures RoleCount(s[..i], role) <= RoleCount(s[..j], role)
    decreases j
  {
    if i < j {
      CountNext(s, role, j - 1);
      CountMonotone(s, role, i, j - 1);
    }
  }

  lemma FourDigitsInjective(m: nat, n: nat)
    requires m <= 9999 && n <= 9999 && FourDigits(m) == FourDigits(n)
    ensures m == n
  {
    var a, b := FourDigits(m), FourDigits(n);
    assert a[0] == b[0] && a[1] == b[1] && a[2] == b[2] && a[3] == b[3];
    DigitParses(m / 1000); DigitParses(m / 100 % 10); DigitParses(m / 10 % 10); DigitParses(m % 10);
    DigitParses(n / 1000); DigitParses(n / 100 % 10); DigitParses(n / 10 % 10); DigitParses(n % 10);
    hide Digit, DigitValue, FourDigits;
    DigitsOf(m);
    DigitsOf(n);
  }

  lemma DigitsOf(n: nat)
    requires n <= 9999
    ensures n == n / 1000 * 1000 + n / 100 % 10 * 100 + n / 10 % 10 * 10 + n % 10
  {
    Quotients(n);
    LastDigit(n, n / 10, n % 10);
    LastDigit(n / 10, n / 100, n / 10 % 10);
    LastDigit(n / 100, n / 1000, n / 100 % 10);
  }

  lemma LastDigit(n: nat, q: nat, d: nat)
    requires q == n / 10 && d == n % 10
    ensures n == 10 * q + d
  {}

  lemma Quotients(n: nat)
    ensures n / 100 == n / 10 / 10 && n / 1000 == n / 100 / 10
  {}

  // Two stages of one role on one route never share an identifier: the last four characters tell them apart.
  lemma IdentifiersApart(w: Workflow, a: RouteNode, b: RouteNode, role: string, prefix: string)
    requires exists s :: Complete(w, s)
    requires a.role == role && b.role == role && a in OrderOf(w) && b in OrderOf(w)
    requires Identifier(w, a, role, prefix) != ""
    requires HasExpectedSequence(Identifier(w, a, role, prefix), Identifier(w, b, role, prefix))
    ensures a == b
  {
    hide Complete, FourDigits, RoleCount, Numbered;
    var s := OrderOf(w);
    var i :| 0 <= i < |s| && s[i] == a;
    var j :| 0 <= j < |s| && s[j] == b;
    PlaceIs(w, s, i);
    PlaceIs(w, s, j);
    var m := NumberAt(s, i, prefix);
    var n := NumberAt(s, j, prefix);
    FourDigitsInjective(m, n);
    if i < j { Later(s, role, i, j); } else if j < i { Later(s, role, j, i); }
  }

  lemma NumberAt(s: seq<RouteNode>, i: nat, prefix: string) returns (m: nat)
    requires i < |s| && Place(s, s[i].nodeId) == i && |Numbered(s, s[i], prefix)| >= 4
    ensures m <= 9999 && m == RoleCount(s[..i + 1], s[i].role)
    ensures var t := Numbered(s, s[i], prefix); t[|t| - 4..] == FourDigits(m)
  {
    hide RoleCount, FourDigits;
    m := RoleCount(s[..i + 1], s[i].role);
    NumberedIs(s, s[i], prefix, i);
    assert 0 < m <= 9999;
    LastFour(prefix, FourDigits(m));
  }

  lemma LastFour(prefix: string, digits: string)
    requires |digits| == 4
    ensures var t := prefix + digits; t[|t| - 4..] == digits
  {}

  lemma PlaceIs(w: Workflow, s: seq<RouteNode>, k: nat)
    requires Complete(w, s) && k < |s|
    ensures Place(s, s[k].nodeId) == k
  {
    var p := Place(s, s[k].nodeId);
    if p < k { OrderedDistinct(w, s, p, k); }
  }

  lemma Later(s: seq<RouteNode>, role: string, i: nat, j: nat)
    requires i < j < |s| && s[j].role == role
    ensures RoleCount(s[..i + 1], role) < RoleCount(s[..j + 1], role)
  {
    CountMonotone(s, role, i + 1, j);
    CountNext(s, role, j);
  }

  // ---- the checks ----

  predicate HasExpectedSequence(value: string, expected: string) {
    |expected| >= 4 && |value| >= 4 && value[|value| - 4..] == expected[|expected| - 4..]
  }

  predicate HasPrefix(value: string, first: string, second: string) {
    first <= value || second <= value
  }

  // The name is one of two, and the number the expected one.
  predicate Numbering(value: string, first: string, second: string, expected: string) {
    HasPrefix(value, first, second) && HasExpectedSequence(value, expected)
  }

  ghost predicate TransportOk(w: Workflow, n: RouteNode, destination: Option<RouteNode>, values: map<string, string>) {
    && destination.Some?
    && Trimmed(values, "shipmentId") == Identifier(w, n, "logistics", "SHIP-")
    && Numbering(Trimmed(values, "vehicleContainerId"), "VEHICLE-", "CONTAINER-",
        Identifier(w, n, "logistics", "VEHICLE-"))
    && Trimmed(values, "deliveryLocation") == destination.value.caption
  }

  ghost predicate StorageOk(w: Workflow, n: RouteNode, values: map<string, string>) {
    && Trimmed(values, "storageLotId") == Identifier(w, n, "warehouse", "STORAGE-")
    && Numbering(Trimmed(values, "storageZoneRackId"), "ZONE-", "RACK-", Identifier(w, n, "warehouse", "ZONE-"))
  }

  ghost predicate DetailsOk(w: Workflow, n: RouteNode, role: string, values: map<string, string>) {
    && (role == "logistics" ==> TransportOk(w, n, Successor(w, n.nodeId), values))
    && (role == "warehouse" ==> StorageOk(w, n, values))
  }

  datatype DetailError = DetailsFine | NoDestination | WrongShipment | WrongVehicle | WrongLot | WrongZone
    | WrongDelivery

  method CheckDetails(w: Workflow, n: RouteNode, role: string, values: map<string, string>) returns (error: DetailError)
    ensures error == DetailsFine <==> DetailsOk(w, n, role, values)
  {
    hide Successor, Identifier, Trim, Numbering;
    if role == "logistics" {
      error := CheckTransport(w, n, Successor(w, n.nodeId), values);
      return;
    }
    if role == "warehouse" {
      var lot := NumberedRouteIdentifier(w, n, "warehouse", "STORAGE-");
      if Trimmed(values, "storageLotId") != lot {
        return WrongLot;
      }
      var zone := NumberedRouteIdentifier(w, n, "warehouse", "ZONE-");
      if !Numbering(Trimmed(values, "storageZoneRackId"), "ZONE-", "RACK-", zone) {
        return WrongZone;
      }
    }
    return DetailsFine;
  }

  method CheckTransport(w: Workflow, n: RouteNode, destination: Option<RouteNode>, values: map<string, string>)
    returns (error: DetailError)
    ensures error == DetailsFine <==> TransportOk(w, n, destination, values)
  {
    hide Identifier, Trim, Numbering;
    if destination.None? {
      return NoDestination;
    }
    var shipment := NumberedRouteIdentifier(w, n, "logistics", "SHIP-");
    if Trimmed(values, "shipmentId") != shipment {
      return WrongShipment;
    }
    var vehicle := NumberedRouteIdentifier(w, n, "logistics", "VEHICLE-");
    if !Numbering(Trimmed(values, "vehicleContainerId"), "VEHICLE-", "CONTAINER-", vehicle) {
      return WrongVehicle;
    }
    if Trimmed(values, "deliveryLocation") != destination.value.caption {
      return WrongDelivery;
    }
    return DetailsFine;
  }

  // The values that a transport block records: the delivery location as the route names it.
  function FormValues(w: Workflow, n: RouteNode, role: string, values: map<string, string>): map<string, string> {
    var destination := Successor(w, n.nodeId);
    if role == "logistics" && destination.Some? then values["deliveryLocation" := destination.value.caption] else values
  }
}
