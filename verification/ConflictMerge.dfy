/** The Agent's merge: one file per agreed path, and for a path whose sources
    disagree either the chosen version alone or every version kept. */
module ConflictMerge {
  import opened ArchivePath
  import opened ConflictFiles
  import Text

  const USE_SOURCE := "use_source"
  const PRESERVE_BOTH := "preserve_both"
  const PRESERVE_ALL := "preserve_all_originals"

  datatype Decision = Decision(path: string, source: int, action: string)

  predicate KnownAction(action: string) {
    action == USE_SOURCE || action == PRESERVE_BOTH
  }

  datatype Merge = Merge(conflictId: string, base: int, defaultAction: string, evidence: Evidence,
      decisions: map<string, Decision>)

  datatype Selected = Selected(node: int, sourcePath: string, entry: Entry)

  datatype MergeError =
    | SourceUnavailable
    | DecisionOnAgreedPath
    | DecisionSourceMissing
    | BaseMissing
    | SelectionUnavailable
    | NoPreservedPath(reason: PathError)

  datatype Result<T> = Ok(value: T) | Err(error: MergeError)

  /** Which source supplies `path`. */
  function Choose(m: Merge, path: string): Result<int> {
    if |Versions(m.evidence, path)| == 1 then
      if path in m.decisions then Err(DecisionOnAgreedPath)
      else if Holds(m.evidence, m.base, path) then Ok(m.base)
      else if Present(m.evidence, path) != [] then Ok(Present(m.evidence, path)[0])
      else Ok(0)
    else if path in m.decisions then
      var d := m.decisions[path];
      if !Holds(m.evidence, d.source, path) || !KnownAction(d.action) then Err(DecisionSourceMissing) else Ok(d.source)
    else if Holds(m.evidence, m.base, path) then Ok(m.base)
    else Err(BaseMissing)
  }

  predicate PreserveAll(m: Merge, path: string) {
    && |Versions(m.evidence, path)| > 1
    && (if path in m.decisions then m.decisions[path].action == PRESERVE_BOTH else m.defaultAction == PRESERVE_ALL)
  }

  /** The growing result: the files selected, the output paths taken, the decisions used. */
  datatype Draft = Draft(selected: seq<Selected>, reserved: set<string>, used: nat)

  /** Keeps the version of source number `i` at `path`, unless it is kept already. */
  function PreserveOne(m: Merge, path: string, i: nat, kept: set<string>, d: Draft): Result<(Draft, set<string>)>
    requires i < |m.evidence.nodes|
  {
    var node := m.evidence.nodes[i];
    if !Holds(m.evidence, node, path) then Ok((d, kept))
    else
      var entry := Lookup(m.evidence, node, path);
      if Version(entry) in kept then Ok((d, kept))
      else
        match PreservedPath(m.conflictId, node, path, d.reserved)
        case Refused(reason) => Err(NoPreservedPath(reason))
        case Kept(target) =>
          Ok((d.(selected := d.selected + [Selected(node, entry.path, entry.(path := target))],
                 reserved := d.reserved + {target}),
              kept + {Version(entry)}))
  }

  function PreserveFrom(m: Merge, path: string, i: nat, kept: set<string>, d: Draft): Result<Draft>
    requires i <= |m.evidence.nodes|
    decreases |m.evidence.nodes| - i
  {
    if i == |m.evidence.nodes| then Ok(d)
    else
      match PreserveOne(m, path, i, kept, d)
      case Err(error) => Err(error)
      case Ok((next, keptNext)) => PreserveFrom(m, path, i + 1, keptNext, next)
  }

  /** The draft after the chosen version of `path` is added. */
  function AddChosen(m: Merge, path: string, node: int, d: Draft): Draft
    requires Holds(m.evidence, node, path)
  {
    var entry := Lookup(m.evidence, node, path);
    Draft(d.selected + [Selected(node, entry.path, entry)], d.reserved,
          d.used + if |Versions(m.evidence, path)| != 1 && path in m.decisions then 1 else 0)
  }

  function MergePath(m: Merge, path: string, d: Draft): Result<Draft> {
    match Choose(m, path)
    case Err(error) => Err(error)
    case Ok(node) =>
      if !Holds(m.evidence, node, path) then Err(SelectionUnavailable)
      else if !PreserveAll(m, path) then Ok(AddChosen(m, path, node, d))
      else PreserveFrom(m, path, 0, {Version(Lookup(m.evidence, node, path))}, AddChosen(m, path, node, d))
  }

  function MergeFrom(m: Merge, paths: seq<string>, d: Draft): Result<Draft> {
    if paths == [] then Ok(d)
    else
      match MergePath(m, paths[0], d)
      case Err(error) => Err(error)
      case Ok(next) => MergeFrom(m, paths[1..], next)
  }

  // ----- Sorting the result by output path -----

  function OutputPaths(s: seq<Selected>): seq<string> {
    seq(|s|, i requires 0 <= i < |s| => s[i].entry.path)
  }

  function InsertByPath(x: Selected, s: seq<Selected>): seq<Selected> {
    if s == [] || Text.Less(x.entry.path, s[0].entry.path) then [x] + s else [s[0]] + InsertByPath(x, s[1..])
  }

  function SortByPath(s: seq<Selected>): seq<Selected> {
    if s == [] then [] else InsertByPath(s[|s| - 1], SortByPath(s[..|s| - 1]))
  }

  datatype Selection = Selection(files: seq<Selected>, used: nat)

  ghost predicate Available(m: Merge) {
    forall n :: n in m.evidence.nodes ==> n in m.evidence.files
  }

  /** The whole of `buildConflictResolutionSelection`, given the sorted paths. */
  ghost function Select(m: Merge, paths: seq<string>): Result<Selection> {
    if !Available(m) then Err(SourceUnavailable)
    else
      match MergeFrom(m, paths, Draft([], Union(m.evidence), 0))
      case Err(error) => Err(error)
      case Ok(d) => Ok(Selection(SortByPath(d.selected), d.used))
  }

  // ----- The loops -----

  method ChooseSource(m: Merge, path: string) returns (r: Result<int>, disagree: bool)
    ensures r == Choose(m, path)
    ensures disagree <==> |Versions(m.evidence, path)| > 1
  {
    var versions, present := CollectVersions(m.evidence, path);
    disagree := |versions| > 1;
    if |versions| == 1 {
      if path in m.decisions { return Err(DecisionOnAgreedPath), disagree; }
      r := Ok(0);
      if Holds(m.evidence, m.base, path) {
        r := Ok(m.base);
      } else if |present| > 0 {
        r := Ok(present[0]);
      }
    } else if path in m.decisions {
      var d := m.decisions[path];
      if !Holds(m.evidence, d.source, path) || !KnownAction(d.action) { return Err(DecisionSourceMissing), disagree; }
      r := Ok(d.source);
    } else if Holds(m.evidence, m.base, path) {
      r := Ok(m.base);
    } else {
      r := Err(BaseMissing);
    }
  }

  method PreserveVersions(m: Merge, path: string, node: int, start: Draft) returns (r: Result<Draft>)
    requires Holds(m.evidence, node, path)
    ensures r == PreserveFrom(m, path, 0, {Version(Lookup(m.evidence, node, path))}, start)
  {
    var kept := {Version(Lookup(m.evidence, node, path))};
    ghost var goal := PreserveFrom(m, path, 0, kept, start);
    var d := start;
    for i := 0 to |m.evidence.nodes|
      invariant goal == PreserveFrom(m, path, i, kept, d)
    {
      var source := m.evidence.nodes[i];
      if Holds(m.evidence, source, path) {
        var alternate := Lookup(m.evidence, source, path);
        if Version(alternate) !in kept {
          var found := FindPreservedPath(m.conflictId, source, path, d.reserved);
          if found.Refused? { return Err(NoPreservedPath(found.error)); }
          d := d.(selected := d.selected + [Selected(source, alternate.path, alternate.(path := found.path))],
                  reserved := d.reserved + {found.path});
          kept := kept + {Version(alternate)};
        }
      }
    }
    return Ok(d);
  }

  /** One turn of the loop over paths. */
  method TakePath(m: Merge, path: string, d: Draft) returns (r: Result<Draft>)
    ensures r == MergePath(m, path, d)
  {
    var choice, disagree := ChooseSource(m, path);
    if choice.Err? { return Err(choice.error); }
    if !Holds(m.evidence, choice.value, path) { return Err(SelectionUnavailable); }
    var next := AddChosen(m, path, choice.value, d);
    var preserve := if path in m.decisions then m.decisions[path].action == PRESERVE_BOTH
      else m.defaultAction == PRESERVE_ALL;
    if !preserve || !disagree { return Ok(next); }
    r := PreserveVersions(m, path, choice.value, next);
  }

  /** Whatever order the maps are visited in, the result is the one merge of the sorted paths. */
  method BuildSelection(m: Merge) returns (r: Result<Selection>)
    ensures forall paths :: Text.IsListing(paths, Union(m.evidence)) ==> r == Select(m, paths)
  {
    var ok, all := CollectPaths(m.evidence);
    if !ok { return Err(SourceUnavailable); }
    var paths := Text.SortKeys(all);
    forall other | Text.IsListing(other, Union(m.evidence)) ensures other == paths {
      Text.ListingUnique(other, paths, all);
    }
    var d := Draft([], all, 0);
    ghost var goal := MergeFrom(m, paths, d);
    for k := 0 to |paths|
      invariant goal == MergeFrom(m, paths[k..], d)
    {
      assert paths[k..][0] == paths[k] && paths[k..][1..] == paths[k + 1..];
      var step := TakePath(m, paths[k], d);
      if step.Err? { return Err(step.error); }
      d := step.value;
    }
    assert paths[|paths|..] == [];
    r := Ok(Selection(SortByPath(d.selected), d.used));
  }
}
