/** Default output paths: `<input dir>/<input stem>_pose.mp4` and
    `..._pose.csv` when the option is left empty. Paths are modelled after
    pathlib's parsed form: an anchor and the list of components below it. */
module Paths {
  import opened Wrappers

  datatype Path = Path(anchor: string, parts: seq<string>)

  /** `with_name` refuses a path whose own name is empty (`.` or `/`) and a
      new name that is empty, `.` or contains a separator. */
  datatype PathError = EmptyName | InvalidName(name: string)

  /** What pathlib's parsing guarantees of every component: it is neither
      empty nor `.`, and holds no separator. */
  predicate WellFormed(p: Path) {
    forall j :: 0 <= j < |p.parts| ==> p.parts[j] != "" && p.parts[j] != "." && '/' !in p.parts[j]
  }

  /** Where an output goes: the option as given, or the derived path. */
  datatype OutPath = Given(arg: string) | Derived(path: Path)

  const VIDEO_TAIL: string := "_pose.mp4"
  const CSV_TAIL: string := "_pose.csv"

  /** pathlib's `name`: the last component, or empty when there is none. */
  function Name(p: Path): string {
    if |p.parts| == 0 then "" else p.parts[|p.parts| - 1]
  }

  /** Python's `str.rfind(c)`. */
  function LastIndexOf(s: string, c: char): (r: Option<nat>)
    ensures r.Some? ==> r.value < |s| && s[r.value] == c
    ensures r.Some? ==> forall j :: r.value < j < |s| ==> s[j] != c
    ensures r.None? ==> forall j :: 0 <= j < |s| ==> s[j] != c
    decreases |s|
  {
    if |s| == 0 then None
    else if s[|s| - 1] == c then Some(|s| - 1)
    else LastIndexOf(s[..|s| - 1], c)
  }

  /** Start of pathlib's suffix: the last dot, unless it opens the name
      or ends it. */
  function SuffixStart(name: string): (r: Option<nat>)
    ensures r.Some? ==> 0 < r.value < |name| - 1 && name[r.value] == '.'
    ensures r.Some? ==> forall j :: r.value < j < |name| ==> name[j] != '.'
    ensures r.None? ==> forall j :: 0 < j < |name| - 1 && name[j] == '.' ==>
      exists j' :: j < j' < |name| && name[j'] == '.'
  {
    match LastIndexOf(name, '.')
    case Some(i) => if 0 < i < |name| - 1 then Some(i) else None
    case None => None
  }

  /** pathlib's `stem`. */
  function Stem(name: string): string {
    match SuffixStart(name)
    case Some(i) => name[..i]
    case None => name
  }

  /** pathlib's `suffix`. */
  function Suffix(name: string): string {
    match SuffixStart(name)
    case Some(i) => name[i..]
    case None => ""
  }

  /** A name splits into stem and suffix; the suffix is empty or a dot
      followed by at least one character that is not a dot. */
  lemma StemSuffixSplit(name: string)
    ensures Stem(name) + Suffix(name) == name
    ensures Suffix(name) == [] || (2 <= |Suffix(name)| && Suffix(name)[0] == '.'
      && forall j :: 1 <= j < |Suffix(name)| ==> Suffix(name)[j] != '.')
  {
    match SuffixStart(name)
    case Some(i) =>
      assert name[..i] + name[i..] == name;
    case None =>
  }

  predicate ValidNewName(name: string) {
    name != "" && name != "." && '/' !in name
  }

  /** pathlib's `with_name`: same directory, last component replaced. */
  function WithName(p: Path, name: string): (r: Result<Path, PathError>)
    ensures r.Failure? <==> Name(p) == "" || !ValidNewName(name)
    ensures r.Success? ==> (r.value.anchor == p.anchor && Name(r.value) == name
      && r.value.parts[..|r.value.parts| - 1] == p.parts[..|p.parts| - 1])
  {
    if Name(p) == "" then Failure(EmptyName)
    else if !ValidNewName(name) then Failure(InvalidName(name))
    else
      var q := Path(p.anchor, p.parts[..|p.parts| - 1] + [name]);
      assert q.parts[..|q.parts| - 1] == p.parts[..|p.parts| - 1];
      Success(q)
  }

  /** `Path(arg) if arg else in_path.with_name(in_path.stem + tail)`. */
  function ResolveOutput(arg: string, input: Path, tail: string): (r: Result<OutPath, PathError>)
    requires WellFormed(input)
    requires tail == VIDEO_TAIL || tail == CSV_TAIL
    ensures arg != "" ==> r == Success(Given(arg))
    ensures arg == "" ==> (r.Failure? <==> Name(input) == "")
    ensures r.Success? && arg == "" ==> (r.value.Derived?
      && r.value.path.anchor == input.anchor
      && Name(r.value.path) == Stem(Name(input)) + tail
      && r.value.path.parts[..|r.value.path.parts| - 1] == input.parts[..|input.parts| - 1])
  {
    if arg != "" then Success(Given(arg))
    else
      var stem := Stem(Name(input));
      var name := stem + tail;
      assert '/' !in stem by {
        StemSuffixSplit(Name(input));
        assert forall j :: 0 <= j < |stem| ==> stem[j] == Name(input)[j];
      }
      assert '/' !in name by {
        assert forall j :: |stem| <= j < |name| ==> name[j] == tail[j - |stem|];
      }
      match WithName(input, name)
      case Success(p) => Success(Derived(p))
      case Failure(e) => Failure(e)
  }

  /** A derived output never names the input file itself, and the derived
      video and CSV paths differ from each other. */
  lemma DerivedOutputsDistinct(input: Path)
    requires WellFormed(input)
    ensures ResolveOutput("", input, VIDEO_TAIL).Success? ==>
      ResolveOutput("", input, VIDEO_TAIL).value.path != input
    ensures ResolveOutput("", input, CSV_TAIL).Success? ==>
      ResolveOutput("", input, CSV_TAIL).value.path != input
    ensures ResolveOutput("", input, VIDEO_TAIL).Success? ==>
      ResolveOutput("", input, VIDEO_TAIL).value.path != ResolveOutput("", input, CSV_TAIL).value.path
  {
    var name := Name(input);
    var stem := Stem(name);
    StemSuffixSplit(name);
    DerivedNameDiffers(stem, Suffix(name), VIDEO_TAIL);
    DerivedNameDiffers(stem, Suffix(name), CSV_TAIL);
    var v := stem + VIDEO_TAIL;
    var c := stem + CSV_TAIL;
    assert v[|v| - 1] != c[|c| - 1];
  }

  /** A tail that starts with `_` cannot stand where a suffix stood. */
  lemma DerivedNameDiffers(stem: string, suffix: string, tail: string)
    requires suffix == [] || suffix[0] == '.'
    requires 0 < |tail| && tail[0] == '_'
    ensures stem + tail != stem + suffix
  {
    var a, b := stem + tail, stem + suffix;
    if |a| == |b| {
      assert a[|stem|] != b[|stem|];
    }
  }
}
