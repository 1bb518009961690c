/** `getFileNameToDeploy` as a function of the first command-line argument
    and the listing of the current directory. A truthy argument is used as
    is; otherwise the `.zip` names of the listing decide: none is an exit with
    status 1, one is used, several are offered in a prompt whose answer is
    one of them. */
module FilePick {
  import opened Wrappers
  import opened JsString

  const ZipSuffix: string := ".zip"
  const NoZipMessage: string := "No .zip files found in the current directory"
  const NoZipExitCode: int := 1

  /** `file.endsWith(".zip")`: case-sensitive, and `.zip` alone qualifies. */
  function IsZip(name: string): (b: bool)
    ensures b <==> exists stem :: name == stem + ".zip"
  {
    EndsWith(name, ZipSuffix)
  }

  /** `a` is a subsequence of `b`: `b` with some elements removed. */
  predicate IsSubsequence<T(==)>(a: seq<T>, b: seq<T>)
    decreases |b|
  {
    if a == [] then true
    else if b == [] then false
    else (a[0] == b[0] && IsSubsequence(a[1..], b[1..])) || IsSubsequence(a, b[1..])
  }

  /** `filesInDir`: the names of the listing that end in `.zip`, in listing
      order. Every occurrence of a `.zip` name is kept and nothing else. */
  function ZipFiles(listing: seq<string>): (r: seq<string>)
    ensures IsSubsequence(r, listing)
    ensures forall i :: 0 <= i < |r| ==> IsZip(r[i])
    ensures forall x :: multiset(r)[x] == if IsZip(x) then multiset(listing)[x] else 0
  {
    if listing == [] then []
    else
      var rest := ZipFiles(listing[1..]);
      assert listing == [listing[0]] + listing[1..];
      if IsZip(listing[0]) then
        assert ([listing[0]] + rest)[1..] == rest;
        [listing[0]] + rest
      else rest
  }

  /** The decision `getFileNameToDeploy` takes before any prompt answer. */
  datatype Decision =
    | Explicit(name: string)           // the truthy argument
    | OnlyZip(name: string)            // the single `.zip` name
    | Prompt(choices: seq<string>)     // at least two `.zip` names to choose from
    | NoZips                           // report NoZipMessage, exit with NoZipExitCode

  /** A truthy argument is the decision; otherwise the number of `.zip`
      names decides between an exit, the single name and a prompt. */
  function Decide(arg: Option<string>, listing: seq<string>): (d: Decision)
    ensures Truthy(arg) ==> d == Explicit(arg.value)
    ensures !Truthy(arg) ==> !d.Explicit?
    ensures !Truthy(arg) ==> (d.NoZips? <==> forall i :: 0 <= i < |listing| ==> !IsZip(listing[i]))
    ensures !Truthy(arg) && |ZipFiles(listing)| == 1 ==> d == OnlyZip(ZipFiles(listing)[0])
    ensures !Truthy(arg) && |ZipFiles(listing)| >= 2 ==> d == Prompt(ZipFiles(listing))
    ensures d.OnlyZip? ==> IsZip(d.name) && d.name in listing
    ensures d.Prompt? ==> |d.choices| >= 2 && d.choices == ZipFiles(listing)
  {
    if Truthy(arg) then Explicit(arg.value)
    else
      var zips := ZipFiles(listing);
      if |zips| == 0 then
        NoZipsMeansNoZipNames(listing);
        NoZips
      else if |zips| == 1 then
        assert zips[0] in multiset(zips);
        OnlyZip(zips[0])
      else Prompt(zips)
  }

  /** An empty filter result means no name of the listing ends in `.zip`,
      and conversely. */
  lemma NoZipsMeansNoZipNames(listing: seq<string>)
    ensures ZipFiles(listing) == [] <==> forall i :: 0 <= i < |listing| ==> !IsZip(listing[i])
  {
    if ZipFiles(listing) == [] {
      forall i | 0 <= i < |listing| ensures !IsZip(listing[i]) {
        assert listing[i] in multiset(listing);
        assert multiset(ZipFiles(listing))[listing[i]] == 0;
      }
    } else {
      var x := ZipFiles(listing)[0];
      assert x in multiset(ZipFiles(listing));
      assert x in multiset(listing);
      var i :| 0 <= i < |listing| && listing[i] == x;
    }
  }

  /** What `getFileNameToDeploy` resolves to: a file name, or a process exit. */
  datatype Picked = File(name: string) | Exit(code: int, message: string)

  /** `getFileNameToDeploy()`; the prompt answer is any one of its choices. */
  method GetFileNameToDeploy(arg: Option<string>, listing: seq<string>) returns (p: Picked)
    ensures Truthy(arg) ==> p == File(arg.value)
    ensures !Truthy(arg) ==> (p.Exit? <==> forall i :: 0 <= i < |listing| ==> !IsZip(listing[i]))
    ensures p.Exit? ==> p == Exit(NoZipExitCode, NoZipMessage)
    ensures !Truthy(arg) && p.File? ==> IsZip(p.name) && p.name in listing
    ensures !Truthy(arg) && |ZipFiles(listing)| == 1 ==> p == File(ZipFiles(listing)[0])
    ensures !Truthy(arg) && |ZipFiles(listing)| >= 2 ==> p.File? && p.name in ZipFiles(listing)
  {
    match Decide(arg, listing)
    case Explicit(name) =>
      p := File(name);
    case OnlyZip(name) =>
      p := File(name);
    case NoZips =>
      p := Exit(NoZipExitCode, NoZipMessage);
    case Prompt(choices) =>
      var i :| 0 <= i < |choices|;
      assert choices[i] in multiset(choices);
      p := File(choices[i]);
  }

  /** A truthy argument is the answer whatever the directory holds. */
  lemma ArgumentIgnoresListing(arg: string, a: seq<string>, b: seq<string>)
    requires arg != ""
    ensures Decide(Some(arg), a) == Decide(Some(arg), b) == Explicit(arg)
  {
  }

  /** An empty argument is falsy: the directory is scanned as when there is
      no argument at all. */
  lemma EmptyArgumentScans(listing: seq<string>)
    ensures Decide(Some(""), listing) == Decide(None, listing)
  {
  }

  /** A listing filtered to its `.zip` names, in order. */
  lemma FilterExample()
    ensures ZipFiles(["a.zip", "notes.txt", "b.ZIP"]) == ["a.zip"]
  {
    var l := ["a.zip", "notes.txt", "b.ZIP"];
    assert !IsZip(l[2]) by { assert l[2][1..] == ".ZIP"; }
    assert !IsZip(l[1]) by { assert l[1][5..] == ".txt"; }
    assert IsZip(l[0]) by { assert l[0][1..] == ".zip"; }
    assert l[2..] == [l[2]] && l[2..][1..] == [];
    assert ZipFiles(l[2..]) == [];
    assert l[1..][1..] == l[2..];
    assert ZipFiles(l[1..]) == [];
  }
}
