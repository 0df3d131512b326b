/**
 The fixed, ordered partition set shared by the suspension portal and the observer dashboard:
 the order partitions are probed in, each partition's key column, its display label, and the
 VIP rule.
 */
module Partitions {
  import opened Text

  const VipTable: string := "maitri_vip_registrations"
  const FacultyTable: string := "maitri_faculty_registrations"

  /** `TABLES`, in probe order. */
  const Tables: seq<string> := [
    "ggu_students",
    "giet_degree",
    "giet_engineering",
    "giet_pharmacy",
    "giet_polytechnic",
    VipTable,
    FacultyTable
  ]

  /** The column a partition's credential code lives in. */
  function KeyColumn(table: string): (column: string)
  {
    if table == VipTable then "vip_code"
    else if table == FacultyTable then "fac_code"
    else "pin_number"
  }

  /** `tableToBlock`. */
  const FixedBlocks: map<string, string> := map[
    "ggu_students" := "GGU COLLEGE",
    "giet_degree" := "GIET DEGREE",
    "giet_engineering" := "GIET ENGINEERING",
    "giet_pharmacy" := "GIET PHARMACY",
    "giet_polytechnic" := "GIET POLY",
    VipTable := "VIP GUESTS",
    FacultyTable := "FACULTY & STAFF"
  ]

  /** The human label of a partition: the fixed one, else the name with `_` as space, upper-cased. */
  function BlockName(table: string): string {
    if table in FixedBlocks then FixedBlocks[table]
    else UpperAscii(UnderscoresToSpaces(table))
  }

  /** A row is shown and counted as VIP when its own `is_vip` flag says so or it sits in the VIP partition. */
  predicate IsVip(is_vip: bool, table: string) {
    is_vip || table == VipTable
  }

  /** Every probed partition has a fixed label, and no two share one, so a label names its partition. */
  lemma BlockNamesIdentifyPartitions()
    ensures forall t :: t in Tables ==> t in FixedBlocks && BlockName(t) == FixedBlocks[t]
    ensures forall i, j :: 0 <= i < j < |Tables| ==> Tables[i] != Tables[j]
    ensures forall i, j :: 0 <= i < j < |Tables| ==> BlockName(Tables[i]) != BlockName(Tables[j])
  {
  }

  /**
   A partition outside the fixed map is labelled by its own name: same length, no underscore,
   no lower-case ASCII letter, and every other character kept up to case.
   */
  lemma FallbackLabel(table: string)
    requires table !in FixedBlocks
    ensures |BlockName(table)| == |table|
    ensures forall i :: 0 <= i < |table| ==> BlockName(table)[i] != '_' && !IsLowerAscii(BlockName(table)[i])
    ensures forall i :: 0 <= i < |table| && table[i] == '_' ==> BlockName(table)[i] == ' '
    ensures forall i :: 0 <= i < |table| && table[i] != '_' ==> BlockName(table)[i] == UpperChar(table[i])
  {
  }

  /** `vip_code` belongs to the VIP partition, `fac_code` to the faculty partition, `pin_number` to every other. */
  lemma KeyColumnRule(table: string)
    ensures KeyColumn(table) in {"pin_number", "vip_code", "fac_code"}
    ensures KeyColumn(table) == "vip_code" <==> table == VipTable
    ensures KeyColumn(table) == "fac_code" <==> table == FacultyTable
  {
  }

  /** The key column rule, read over the probe order: only the last two partitions differ. */
  lemma KeyColumnsInProbeOrder()
    ensures forall i :: 0 <= i < 5 ==> KeyColumn(Tables[i]) == "pin_number"
    ensures KeyColumn(Tables[5]) == "vip_code" && KeyColumn(Tables[6]) == "fac_code"
  {
  }
}
