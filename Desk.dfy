/**
 * Setting up the desk (Engineers.java:23-48): four eidographs and four
 * pencils numbered from 0, then eight copyists, each handed the pencil and
 * the eidograph it can reach and the duration bounds for its parity.
 */
module Desk {
  import opened Assignment
  import opened Tools
  import opened Copyists

  /**
   * The tools and the copyists as `main` builds them, before any thread
   * starts. Two copyists share a tool exactly when the index arithmetic sends
   * them to the same one (see `Assignment.Sharing` for how many share each).
   */
  method BuildDesk() returns (pencils: seq<Tool>, eidographs: seq<Tool>, copyists: seq<Copyist>)
    ensures |eidographs| == ToolCount && |pencils| == ToolCount && |copyists| == CopyistCount
    ensures forall t :: 0 <= t < ToolCount ==>
      eidographs[t].toolID == t && eidographs[t].toolName == "eidograph" && eidographs[t].isAvailable
    ensures forall t :: 0 <= t < ToolCount ==>
      pencils[t].toolID == t && pencils[t].toolName == "pencil" && pencils[t].isAvailable
    ensures forall i :: 0 <= i < CopyistCount ==>
      copyists[i].copyistID == i &&
      copyists[i].pencil == pencils[PencilIndex(i)] &&
      copyists[i].eidograph == eidographs[EidographIndex(i)] &&
      Bounds(copyists[i].minCopy, copyists[i].maxCopy, copyists[i].minCheck, copyists[i].maxCheck) == CopyistBounds(i) &&
      copyists[i].trace == [] && copyists[i].Valid()
    ensures forall i, j :: 0 <= i < CopyistCount && 0 <= j < CopyistCount ==>
      (copyists[i].pencil == copyists[j].pencil <==> PencilIndex(i) == PencilIndex(j)) &&
      (copyists[i].eidograph == copyists[j].eidograph <==> EidographIndex(i) == EidographIndex(j))
  {
    var num := ToolCount;
    eidographs := [];
    for i := 0 to num
      invariant |eidographs| == i
      invariant forall t :: 0 <= t < i ==>
        eidographs[t].toolID == t && eidographs[t].toolName == "eidograph" && eidographs[t].isAvailable
    {
      var e := new Tool.Eidograph(i);
      eidographs := eidographs + [e];
    }
    pencils := [];
    for i := 0 to num
      invariant |pencils| == i
      invariant forall t :: 0 <= t < ToolCount ==> eidographs[t].isAvailable
      invariant forall t :: 0 <= t < i ==>
        pencils[t].toolID == t && pencils[t].toolName == "pencil" && pencils[t].isAvailable
    {
      var p := new Tool.Pencil(i);
      pencils := pencils + [p];
    }
    copyists := [];
    for i := 0 to CopyistCount
      invariant |copyists| == i
      invariant forall t :: 0 <= t < ToolCount ==> eidographs[t].isAvailable && pencils[t].isAvailable
      invariant forall j :: 0 <= j < i ==>
        copyists[j].copyistID == j &&
        copyists[j].pencil == pencils[PencilIndex(j)] &&
        copyists[j].eidograph == eidographs[EidographIndex(j)] &&
        Bounds(copyists[j].minCopy, copyists[j].maxCopy, copyists[j].minCheck, copyists[j].maxCheck) == CopyistBounds(j) &&
        copyists[j].trace == [] && copyists[j].Valid()
    {
      IndicesInRange(i);
      var c;
      if i % 2 == 0 {
        c := new Copyist(i, pencils[PencilIndex(i)], eidographs[EidographIndex(i)], 30, 60, 40, 100);
      } else {
        c := new Copyist(i, pencils[PencilIndex(i)], eidographs[EidographIndex(i)], 30, 80, 40, 60);
      }
      copyists := copyists + [c];
    }
  }
}
