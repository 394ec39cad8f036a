/** The drop zones a drag exercise offers, chosen by the lesson's id. */
module Zones {

  /** A zone's id (what a drop is judged against) and its caption (the pronoun or ending it stands for). */
  datatype DropZone = DropZone(id: string, caption: string)

  const NounGenderId := "noun-gender"
  const PluralsId := "plurals"

  function DropZones(lessonId: string): (zones: seq<DropZone>)
    ensures lessonId != NounGenderId && lessonId != PluralsId ==> zones == []
    ensures forall i, j :: 0 <= i < j < |zones| ==> zones[i].id != zones[j].id
    ensures forall i :: 0 <= i < |zones| ==> zones[i].id != ""
  {
    if lessonId == NounGenderId then
      [DropZone("m", "ОН"), DropZone("f", "ОНА"), DropZone("n", "ОНО")]
    else if lessonId == PluralsId then
      [DropZone("y", "-Ы"), DropZone("i", "-И"), DropZone("a", "-А"), DropZone("ya", "-Я")]
    else
      []
  }

  function ZoneIds(zones: seq<DropZone>): set<string> {
    set z | z in zones :: z.id
  }

  /** The zone ids of each lesson, and that the two lessons share none. */
  lemma ZoneIdSets()
    ensures ZoneIds(DropZones(NounGenderId)) == {"m", "f", "n"}
    ensures ZoneIds(DropZones(PluralsId)) == {"y", "i", "a", "ya"}
    ensures ZoneIds(DropZones(NounGenderId)) !! ZoneIds(DropZones(PluralsId))
  {
    var g := DropZones(NounGenderId);
    var p := DropZones(PluralsId);
    assert g[0].id == "m" && g[1].id == "f" && g[2].id == "n";
    assert p[0].id == "y" && p[1].id == "i" && p[2].id == "a" && p[3].id == "ya";
  }
}
