/** Canonical workflow states and the mapping from GitLab labels to them. */
module Labels {

  /** The canonical states; BLANK is the empty string. */
  datatype State = BACKLOG | IN_PROGRESS | QA_REVIEW | BLOCKED | DONE | CANCELED | UNKNOWN | BLANK

  datatype LabelType = StateLabel | MetadataLabel | UnknownLabel

  /** Label normalisation is left uninterpreted. */
  datatype Mapper = Mapper(
    normalize: string -> string,
    stateMappings: map<string, State>,
    metadataMappings: map<string, string>)
  {
    function MapLabel(name: string): (State, LabelType) {
      var n := normalize(name);
      if n in stateMappings then (stateMappings[n], StateLabel)
      else if n in metadataMappings then (BLANK, MetadataLabel)
      else (UNKNOWN, UnknownLabel)
    }

    function MetadataKey(name: string): string {
      var n := normalize(name);
      if n in metadataMappings then metadataMappings[n] else ""
    }
  }

  /** GitLab sends add and remove; the code also lets any other text through. */
  datatype LabelAction = Add | Remove | OtherAction

  function DetermineCanonicalState(m: Mapper, action: LabelAction, labelAdded: string, labelRemoved: string): State {
    var name := if action.Add? then labelAdded else labelRemoved;
    if name == "" then BLANK
    else
      var (state, labelType) := m.MapLabel(name);
      match labelType
      case StateLabel => if action.Add? then state else UNKNOWN
      case MetadataLabel => BLANK
      case UnknownLabel => UNKNOWN
  }
}
