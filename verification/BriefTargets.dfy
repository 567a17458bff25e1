/** The realization targets of a brief.  Each authoring upserts the five blueprints of one owner: the
    component and slug that name the realizations. */
module BriefTargets {

  datatype Slot = ServiceInterface | PlanningDto | ServiceImplementation | ServiceTests | PackageExport

  datatype Target = Target(owner: string, slot: Slot)

  const BLUEPRINTS: seq<Slot> := [ServiceInterface, PlanningDto, ServiceImplementation, ServiceTests, PackageExport]

  /** How many target rows a brief has once targets were authored for these owners. */
  function TargetCount(owners: set<string>): nat {
    5 * |owners|
  }

  /** Those rows. */
  function TargetRows(owners: set<string>): set<Target> {
    set owner, slot | owner in owners && slot in BLUEPRINTS :: Target(owner, slot)
  }

  lemma EverySlot(slot: Slot)
    ensures slot in BLUEPRINTS
  {
    assert BLUEPRINTS[0] == ServiceInterface && BLUEPRINTS[1] == PlanningDto && BLUEPRINTS[2] == ServiceImplementation;
    assert BLUEPRINTS[3] == ServiceTests && BLUEPRINTS[4] == PackageExport;
  }

  lemma OneOwner(owner: string)
    ensures |TargetRows({owner})| == 5
  {
    var rows := {Target(owner, ServiceInterface), Target(owner, PlanningDto), Target(owner, ServiceImplementation),
                 Target(owner, ServiceTests), Target(owner, PackageExport)};
    forall t ensures t in TargetRows({owner}) <==> t in rows {
      EverySlot(t.slot);
    }
    assert TargetRows({owner}) == rows;
  }

  lemma RowsApart(owners: set<string>, owner: string)
    requires owner !in owners
    ensures TargetRows(owners + {owner}) == TargetRows(owners) + TargetRows({owner})
    ensures TargetRows(owners) !! TargetRows({owner})
  {
  }

  /** The count is the number of rows: five for each owner, shared by none. */
  lemma {:induction false} CountIsRows(owners: set<string>)
    ensures |TargetRows(owners)| == TargetCount(owners)
  {
    if owners == {} {
      assert TargetRows(owners) == {};
    } else {
      var owner :| owner in owners;
      var rest := owners - {owner};
      CountIsRows(rest);
      RowsApart(rest, owner);
      OneOwner(owner);
      assert owners == rest + {owner};
    }
  }

  /** The upsert loop: five rows of one owner, whatever was there before. */
  method UpsertTargets(rows: set<Target>, ghost owners: set<string>, owner: string) returns (after: set<Target>)
    requires rows == TargetRows(owners)
    ensures after == TargetRows(owners + {owner})
  {
    after := rows;
    for i := 0 to |BLUEPRINTS|
      invariant after == rows + (set slot | slot in BLUEPRINTS[..i] :: Target(owner, slot))
    {
      after := after + {Target(owner, BLUEPRINTS[i])};
      assert BLUEPRINTS[..i + 1] == BLUEPRINTS[..i] + [BLUEPRINTS[i]];
    }
    assert BLUEPRINTS[..|BLUEPRINTS|] == BLUEPRINTS;
  }

  // ---------------------------------------------------------------- owner sets of every size

  function Tally(n: nat): (s: string)
    ensures |s| == n
  {
    if n == 0 then "" else "|" + Tally(n - 1)
  }

  function Tallies(n: nat): set<string> {
    if n == 0 then {} else Tallies(n - 1) + {Tally(n - 1)}
  }

  lemma {:induction false} TalliesCount(n: nat)
    ensures |Tallies(n)| == n
    ensures forall owner :: owner in Tallies(n) ==> |owner| < n
  {
    if n > 0 { TalliesCount(n - 1); }
  }
}
