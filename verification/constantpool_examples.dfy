/** The three-level pool test of the source (Vehicle, Car, Volvo) run
    through the reference bindings of the vtable pass. */
module PoolExamples {
  import opened Results
  import VTables
  import opened ConstantPools

  function Cls(name: string, parent: nat, methods: nat): Option<Entry> {
    Some(Class(name, parent, 0, methods, None))
  }

  function Mth(name: string, owner: nat, address: nat): Option<Entry> {
    Some(Method(name, owner, address, 0, 0))
  }

  function E(name: string, index: nat): VTables.Entry {
    VTables.Entry(name, index)
  }

  /** The three-level hierarchy of the source's pool tests. */
  const Vehicles: Pool := Pool([
    Cls("Vehicle", 0, 2), Mth("hasEngine", 1, 0), Mth("isVehicle", 1, 0),
    Cls("Car", 1, 5), Mth("hasEngine", 4, 0), Mth("gas", 4, 0), Mth("brake", 4, 0),
    Cls("Volvo", 4, 7), Mth("brake", 8, 0), Mth("autopilot", 8, 0)])

  lemma VehiclesWellOrdered()
    ensures WellOrdered(Vehicles)
  {
    forall j | 1 <= j <= Length(Vehicles) ensures RefsBack(Vehicles, j) {
      assert j in {1, 2, 3, 4, 5, 6, 7, 8, 9, 10};
    }
  }

  lemma VehiclesResolved()
    ensures WellOrdered(Vehicles)
    ensures Resolved(Vehicles, 1, 10) == VehicleBindings
    ensures Resolved(Vehicles, 4, 10) == CarBindings
    ensures Resolved(Vehicles, 4, 7) == CarBindings
  {
    VehiclesWellOrdered();
    var v := Vehicles;
    assert Declared(v, 1, 3) == [E("hasEngine", 2), E("isVehicle", 3)];
    assert Declared(v, 1, 10) == Declared(v, 1, 3);
  }

  lemma VehiclesVolvo()
    ensures WellOrdered(Vehicles)
    ensures Resolved(Vehicles, 8, 10) == VolvoBindings
  {
    VehiclesResolved();
    var v := Vehicles;
    NothingDeclaredBefore(v, 8, 8);
    assert Declared(v, 8, 10) == [E("brake", 9), E("autopilot", 10)];
    assert Inherited(v, 8) == Resolved(v, 4, 7);
  }

  const VehicleBindings: seq<VTables.Entry> := [E("hasEngine", 2), E("isVehicle", 3)]
  const CarBindings: seq<VTables.Entry> :=
    [E("hasEngine", 2), E("isVehicle", 3), E("hasEngine", 5), E("gas", 6), E("brake", 7)]
  const VolvoBindings: seq<VTables.Entry> :=
    [E("hasEngine", 2), E("isVehicle", 3), E("hasEngine", 5), E("gas", 6), E("brake", 7), E("brake", 9), E("autopilot", 10)]

  lemma VehicleNames()
    ensures VTables.Names(VehicleBindings) == {"hasEngine", "isVehicle"}
    ensures |VTables.Names(VehicleBindings)| == 2
  {
    var v0: seq<VTables.Entry> := [];
    assert VehicleBindings == v0 + [E("hasEngine", 2)] + [E("isVehicle", 3)];
    assert VTables.Names(v0) == {};
    VTables.NamesSnoc(v0, E("hasEngine", 2));
    VTables.NamesSnoc(v0 + [E("hasEngine", 2)], E("isVehicle", 3));
  }

  lemma CarNames()
    ensures VTables.Names(CarBindings) == {"hasEngine", "isVehicle", "gas", "brake"}
    ensures |VTables.Names(CarBindings)| == 4
  {
    var c0 := VehicleBindings;
    VehicleNames();
    assert CarBindings == c0 + [E("hasEngine", 5)] + [E("gas", 6)] + [E("brake", 7)];
    VTables.NamesSnoc(c0, E("hasEngine", 5));
    VTables.NamesSnoc(c0 + [E("hasEngine", 5)], E("gas", 6));
    VTables.NamesSnoc(c0 + [E("hasEngine", 5)] + [E("gas", 6)], E("brake", 7));
  }

  lemma VolvoNames()
    ensures VTables.Names(VolvoBindings) == {"hasEngine", "isVehicle", "gas", "brake", "autopilot"}
    ensures |VTables.Names(VolvoBindings)| == 5
  {
    CarNames();
    assert VolvoBindings == CarBindings + [E("brake", 9)] + [E("autopilot", 10)];
    VTables.NamesSnoc(CarBindings, E("brake", 9));
    VTables.NamesSnoc(CarBindings + [E("brake", 9)], E("autopilot", 10));
  }

  lemma VehicleClasses(c: nat)
    ensures IsClass(Vehicles, c) <==> c == 1 || c == 4 || c == 8
  {
    if 1 <= c <= 10 {
      assert c in {1, 2, 3, 4, 5, 6, 7, 8, 9, 10};
    }
  }

  /** Each class's final bindings fit in twice its method count. */
  lemma VehicleFits(c: nat)
    requires c == 1 || c == 4 || c == 8
    ensures IsClass(Vehicles, c) && WellOrdered(Vehicles)
    ensures |VTables.Names(Resolved(Vehicles, c, 10))| <= 2 * ClassAt(Vehicles, c).methods
  {
    VehiclesResolved();
    if c == 1 {
      VehicleNames();
    } else if c == 4 {
      CarNames();
    } else {
      VehiclesVolvo();
      VolvoNames();
    }
  }

  lemma VehiclesFit()
    ensures WellOrdered(Vehicles) && Fits(Vehicles)
  {
    VehiclesWellOrdered();
    assert Length(Vehicles) == 10;
    forall c | 1 <= c <= Length(Vehicles) && IsClass(Vehicles, c)
      ensures |VTables.Names(Resolved(Vehicles, c, Length(Vehicles)))| <= 2 * ClassAt(Vehicles, c).methods
    {
      VehicleClasses(c);
      VehicleFits(c);
    }
  }

  /** The pass succeeds on the source's depth-three test pool. */
  lemma VehiclesCompute()
    ensures ComputeVTables(Vehicles).Ok?
  {
    VehiclesFit();
    ComputeVTablesSpec(Vehicles);
  }

  /** Car's bindings extend Vehicle's, Volvo's extend Car's. */
  lemma BindingsGrow(n: string)
    ensures VTables.Find(CarBindings, n)
      == if n == "brake" then 7 else if n == "gas" then 6 else if n == "hasEngine" then 5 else VTables.Find(VehicleBindings, n)
    ensures VTables.Find(VolvoBindings, n)
      == if n == "autopilot" then 10 else if n == "brake" then 9 else VTables.Find(CarBindings, n)
  {
    var c1 := VehicleBindings + [E("hasEngine", 5)];
    var c2 := c1 + [E("gas", 6)];
    assert CarBindings == c2 + [E("brake", 7)];
    var v1 := CarBindings + [E("brake", 9)];
    assert VolvoBindings == v1 + [E("autopilot", 10)];
    VTables.FindSnoc(VehicleBindings, E("hasEngine", 5), n);
    VTables.FindSnoc(c1, E("gas", 6), n);
    VTables.FindSnoc(c2, E("brake", 7), n);
    VTables.FindSnoc(CarBindings, E("brake", 9), n);
    VTables.FindSnoc(v1, E("autopilot", 10), n);
  }

  /** What the source's test expects of each table: Car overrides
      `hasEngine`; Volvo overrides `brake` and inherits Car's `hasEngine`
      and Vehicle's `isVehicle` through Car. */
  lemma BindingAnswers()
    ensures VTables.Find(VehicleBindings, "hasEngine") == 2 && VTables.Find(VehicleBindings, "isVehicle") == 3
    ensures VTables.Find(CarBindings, "hasEngine") == 5 && VTables.Find(CarBindings, "isVehicle") == 3
    ensures VTables.Find(CarBindings, "gas") == 6 && VTables.Find(CarBindings, "brake") == 7
    ensures VTables.Find(VolvoBindings, "hasEngine") == 5 && VTables.Find(VolvoBindings, "isVehicle") == 3
    ensures VTables.Find(VolvoBindings, "gas") == 6 && VTables.Find(VolvoBindings, "brake") == 9
    ensures VTables.Find(VolvoBindings, "autopilot") == 10
  {
    BindingsGrow("hasEngine");
    BindingsGrow("isVehicle");
    BindingsGrow("gas");
    BindingsGrow("brake");
    BindingsGrow("autopilot");
  }

  /** The computed vtables, queried as the source's depth-three test does:
      `vtable_size` and `vtable_get` on the table the pass leaves in each
      class entry. */
  lemma VehicleTable()
    ensures ComputeVTables(Vehicles).Ok? && IsClass(Vehicles, 1)
    ensures VTables.Size(TableAfter(Vehicles, 1)) == 2
    ensures VTables.Get(TableAfter(Vehicles, 1), "hasEngine") == 2
    ensures VTables.Get(TableAfter(Vehicles, 1), "isVehicle") == 3
  {
    VehiclesCompute();
    VehicleClasses(1);
    VehiclesResolved();
    VehicleNames();
    BindingAnswers();
    GetAfterPass(Vehicles, 1, "hasEngine");
    GetAfterPass(Vehicles, 1, "isVehicle");
  }

  lemma CarTable()
    ensures ComputeVTables(Vehicles).Ok? && IsClass(Vehicles, 4)
    ensures VTables.Size(TableAfter(Vehicles, 4)) == 4
    ensures VTables.Get(TableAfter(Vehicles, 4), "hasEngine") == 5
    ensures VTables.Get(TableAfter(Vehicles, 4), "isVehicle") == 3
    ensures VTables.Get(TableAfter(Vehicles, 4), "gas") == 6
    ensures VTables.Get(TableAfter(Vehicles, 4), "brake") == 7
  {
    VehiclesCompute();
    VehicleClasses(4);
    VehiclesResolved();
    CarNames();
    BindingAnswers();
    GetAfterPass(Vehicles, 4, "hasEngine");
    GetAfterPass(Vehicles, 4, "isVehicle");
    GetAfterPass(Vehicles, 4, "gas");
    GetAfterPass(Vehicles, 4, "brake");
  }

  lemma VolvoTable()
    ensures ComputeVTables(Vehicles).Ok? && IsClass(Vehicles, 8)
    ensures VTables.Size(TableAfter(Vehicles, 8)) == 5
    ensures VTables.Get(TableAfter(Vehicles, 8), "hasEngine") == 5
    ensures VTables.Get(TableAfter(Vehicles, 8), "isVehicle") == 3
    ensures VTables.Get(TableAfter(Vehicles, 8), "gas") == 6
    ensures VTables.Get(TableAfter(Vehicles, 8), "brake") == 9
    ensures VTables.Get(TableAfter(Vehicles, 8), "autopilot") == 10
  {
    VehiclesCompute();
    VehicleClasses(8);
    VehiclesVolvo();
    VolvoNames();
    BindingAnswers();
    GetAfterPass(Vehicles, 8, "hasEngine");
    GetAfterPass(Vehicles, 8, "isVehicle");
    GetAfterPass(Vehicles, 8, "gas");
    GetAfterPass(Vehicles, 8, "brake");
    GetAfterPass(Vehicles, 8, "autopilot");
  }
}
