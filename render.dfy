/**
 * The console rendering of each item kind (`print()` in WorkshopTool,
 * KitchenAppliance and GardenTool), as the sequence of lines it writes.
 * Each line is one `System.out.println`. The lemmas show that a rendering
 * determines every field it shows, so no two different records print alike.
 */
module Render {

  const Separator: string := "-------------------------"
  const NoEquipment: string := "Required Equipment: None"
  const EquipmentHeader: string := "Required Equipment:"

  /** The status line shared by all three kinds. */
  function StatusLine(available: bool): (line: string)
    ensures line == "Status: Available" <==> available
    ensures line == "Status: On Loan" <==> !available
  {
    "Status: " + (if available then "Available" else "On Loan")
  }

  /** `KitchenAppliance.print()`. */
  function KitchenLines(id: string, name: string, capacity: string, available: bool): (lines: seq<string>)
    ensures |lines| == 7 && lines[0] == Separator && lines[6] == Separator
    ensures lines[5] == StatusLine(available)
  {
    [Separator,
     "Item Type: Kitchen Appliance",
     "ID: " + id,
     "Name: " + name,
     "Capacity: " + capacity,
     StatusLine(available),
     Separator]
  }

  /** `GardenTool.print()`. */
  function GardenLines(id: string, name: string, material: string, available: bool): (lines: seq<string>)
    ensures |lines| == 7 && lines[0] == Separator && lines[6] == Separator
    ensures lines[5] == StatusLine(available)
  {
    [Separator,
     "Item Type: Garden Tool",
     "ID: " + id,
     "Name: " + name,
     "Material: " + material,
     StatusLine(available),
     Separator]
  }

  /** The for-each loop of `WorkshopTool.print()`: one "- name" line per equipment, in list order. */
  function EquipmentLines(names: seq<string>): (lines: seq<string>)
    ensures |lines| == |names|
    ensures forall k :: 0 <= k < |names| ==> lines[k] == "- " + names[k]
  {
    if names == [] then [] else ["- " + names[0]] + EquipmentLines(names[1..])
  }

  /** `WorkshopTool.print()`, given the names of the required equipment. */
  function WorkshopLines(id: string, name: string, powerType: string, available: bool, equipment: seq<string>): (lines: seq<string>)
    ensures |lines| == if equipment == [] then 8 else 8 + |equipment|
    ensures lines[0] == Separator && lines[|lines| - 1] == Separator
    ensures lines[5] == StatusLine(available)
    ensures equipment == [] ==> lines[6] == NoEquipment
    ensures equipment != [] ==> lines[6] == EquipmentHeader
    ensures equipment != [] ==> forall k :: 0 <= k < |equipment| ==> lines[7 + k] == "- " + equipment[k]
  {
    WorkshopHead(id, name, powerType, available)
    + (if equipment == [] then [NoEquipment] else [EquipmentHeader] + EquipmentLines(equipment))
    + [Separator]
  }

  /** The six lines `WorkshopTool.print()` writes before the equipment section. */
  function WorkshopHead(id: string, name: string, powerType: string, available: bool): (head: seq<string>)
    ensures |head| == 6 && head[0] == Separator && head[5] == StatusLine(available)
  {
    [Separator,
     "Item Type: Workshop Tool",
     "ID: " + id,
     "Name: " + name,
     "Power Type: " + powerType,
     StatusLine(available)]
  }

  lemma NoneNotInHead(id: string, name: string, powerType: string, available: bool)
    ensures NoEquipment !in WorkshopHead(id, name, powerType, available)
  {
    var head := WorkshopHead(id, name, powerType, available);
    assert NoEquipment[0] == 'R';
    assert head[0][0] == '-' && head[1][0] == 'I' && head[2][0] == 'I';
    assert head[3][0] == 'N' && head[4][0] == 'P' && head[5][0] == 'S';
  }

  lemma NoneNotInEquipment(names: seq<string>)
    ensures NoEquipment !in EquipmentLines(names)
  {
    var lines := EquipmentLines(names);
    assert NoEquipment[0] == 'R';
    forall k | 0 <= k < |lines| ensures lines[k] != NoEquipment {
      assert lines[k][0] == '-';
    }
  }

  /** The "None" line appears in a workshop rendering exactly when the tool needs no equipment. */
  lemma WorkshopNoneIffEmpty(id: string, name: string, powerType: string, available: bool, equipment: seq<string>)
    ensures NoEquipment in WorkshopLines(id, name, powerType, available, equipment) <==> equipment == []
  {
    if equipment != [] {
      NoneNotInHead(id, name, powerType, available);
      NoneNotInEquipment(equipment);
      assert EquipmentHeader != NoEquipment && Separator != NoEquipment;
    }
  }

  lemma PrefixCancel(p: string, a: string, b: string)
    requires p + a == p + b
    ensures a == b
  {
    assert a == (p + a)[|p|..];
    assert b == (p + b)[|p|..];
  }

  lemma StatusLineDetermines(a: bool, b: bool)
    requires StatusLine(a) == StatusLine(b)
    ensures a == b
  {
  }

  /** Two kitchen appliances that print alike agree on id, name, capacity and status. */
  lemma KitchenLinesDetermine(id: string, name: string, capacity: string, available: bool,
                              id': string, name': string, capacity': string, available': bool)
    requires KitchenLines(id, name, capacity, available) == KitchenLines(id', name', capacity', available')
    ensures id == id' && name == name' && capacity == capacity' && available == available'
  {
    var l, l' := KitchenLines(id, name, capacity, available), KitchenLines(id', name', capacity', available');
    assert l[2] == l'[2] && l[3] == l'[3] && l[4] == l'[4] && l[5] == l'[5];
    PrefixCancel("ID: ", id, id');
    PrefixCancel("Name: ", name, name');
    PrefixCancel("Capacity: ", capacity, capacity');
    StatusLineDetermines(available, available');
  }

  /** Two garden tools that print alike agree on id, name, material and status. */
  lemma GardenLinesDetermine(id: string, name: string, material: string, available: bool,
                             id': string, name': string, material': string, available': bool)
    requires GardenLines(id, name, material, available) == GardenLines(id', name', material', available')
    ensures id == id' && name == name' && material == material' && available == available'
  {
    var l, l' := GardenLines(id, name, material, available), GardenLines(id', name', material', available');
    assert l[2] == l'[2] && l[3] == l'[3] && l[4] == l'[4] && l[5] == l'[5];
    PrefixCancel("ID: ", id, id');
    PrefixCancel("Name: ", name, name');
    PrefixCancel("Material: ", material, material');
    StatusLineDetermines(available, available');
  }

  /** Two workshop tools that print alike agree on every field, the equipment names included. */
  lemma WorkshopLinesDetermine(id: string, name: string, powerType: string, available: bool, equipment: seq<string>,
                               id': string, name': string, powerType': string, available': bool, equipment': seq<string>)
    requires WorkshopLines(id, name, powerType, available, equipment)
          == WorkshopLines(id', name', powerType', available', equipment')
    ensures id == id' && name == name' && powerType == powerType' && available == available'
    ensures equipment == equipment'
  {
    var l, l' := WorkshopLines(id, name, powerType, available, equipment),
                 WorkshopLines(id', name', powerType', available', equipment');
    assert l[2] == l'[2] && l[3] == l'[3] && l[4] == l'[4] && l[5] == l'[5];
    PrefixCancel("ID: ", id, id');
    PrefixCancel("Name: ", name, name');
    PrefixCancel("Power Type: ", powerType, powerType');
    StatusLineDetermines(available, available');
    if equipment != [] {
      assert |equipment| == |equipment'|;
      forall k | 0 <= k < |equipment| ensures equipment[k] == equipment'[k] {
        assert l[7 + k] == l'[7 + k];
        PrefixCancel("- ", equipment[k], equipment'[k]);
      }
    }
  }
}
