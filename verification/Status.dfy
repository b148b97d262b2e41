/** Task statuses as strings on the wire, and the two display mappings keyed
    by them: the table's chip class and the view modal's chip colour. */
module Status {
  import opened Entities

  const Pending := "Pendiente"
  const InProgress := "En Progreso"
  const Completed := "Completada"

  /** The three statuses the selects offer, as a closed enumeration. */
  datatype TaskStatus = Pendiente | EnProgreso | Completada

  function WireName(st: TaskStatus): string {
    match st
    case Pendiente => Pending
    case EnProgreso => InProgress
    case Completada => Completed
  }

  /** The status a wire string names, if any; every other string (the empty
      one included) names none. */
  function Parse(s: string): (r: Option<TaskStatus>)
    ensures forall st :: r == Some(st) <==> WireName(st) == s
  {
    if s == Pending then Some(Pendiente)
    else if s == InProgress then Some(EnProgreso)
    else if s == Completed then Some(Completada)
    else None
  }

  /** The draft both modals start from and reset to: empty, pending. */
  const EmptyDraft := Draft("", "", Pending)

  const BaseChipClass := "task-chip"
  const NeutralColor := "#BDBDBD"

  function ChipClassOf(st: TaskStatus): string {
    match st
    case Pendiente => "task-chip pending"
    case EnProgreso => "task-chip in-progress"
    case Completada => "task-chip completed"
  }

  function PaletteOf(st: TaskStatus): string {
    match st
    case Pendiente => "#FFA726"
    case EnProgreso => "#42A5F5"
    case Completada => "#66BB6A"
  }

  /** `getStatusClass` of the page: a `switch` on the raw string with a
      default for anything else. It agrees with the enumeration's table, and
      an unknown status gets the bare chip class. */
  function StatusClass(status: string): (cls: string)
    ensures Parse(status).Some? ==> cls == ChipClassOf(Parse(status).value)
    ensures Parse(status).None? ==> cls == BaseChipClass
  {
    if status == Pending then ChipClassOf(Pendiente)
    else if status == InProgress then ChipClassOf(EnProgreso)
    else if status == Completed then ChipClassOf(Completada)
    else BaseChipClass
  }

  /** `getStatusColor` of the view modal: total over strings, agreeing with
      the enumeration's palette, neutral grey for anything else. */
  function StatusColor(status: string): (color: string)
    ensures Parse(status).Some? ==> color == PaletteOf(Parse(status).value)
    ensures Parse(status).None? ==> color == NeutralColor
  {
    if status == Pending then PaletteOf(Pendiente)
    else if status == InProgress then PaletteOf(EnProgreso)
    else if status == Completed then PaletteOf(Completada)
    else NeutralColor
  }

  /** The colour identifies the status: two strings get the same colour
      exactly when they name the same status or both name none. */
  lemma StatusColorDistinguishes(a: string, b: string)
    ensures StatusColor(a) == StatusColor(b) <==> Parse(a) == Parse(b)
  {
    assert PaletteOf(Pendiente)[1] == 'F';
    assert PaletteOf(EnProgreso)[1] == '4';
    assert PaletteOf(Completada)[1] == '6';
    assert NeutralColor[1] == 'B';
  }

  /** Likewise for the chip class. */
  lemma StatusClassDistinguishes(a: string, b: string)
    ensures StatusClass(a) == StatusClass(b) <==> Parse(a) == Parse(b)
  {
    assert |BaseChipClass| == 9;
    assert ChipClassOf(Pendiente)[10] == 'p';
    assert ChipClassOf(EnProgreso)[10] == 'i';
    assert ChipClassOf(Completada)[10] == 'c';
  }
}
