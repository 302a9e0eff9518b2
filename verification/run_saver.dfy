/** Where a saved run is stored, and the guess of which known application a loaded file
    belongs to. Copying the file, setting its permissions and saving the run to the
    database are outside the model. */
module RunSaver {
  import opened Wrappers
  import JavaText
  import PyText
  import MetaData
  import MetaRecord
  import Run
  import Application
  import StringUtils

  /** A score must be above this for an application to be guessed. */
  const AppGuessThreshold := 3

  /** The metadata types that name the directories of the store, outermost first. */
  const StoreTypes: seq<MetaData.Type> :=
    [MetaData.Application, MetaData.Machine, MetaData.Compiler, MetaData.Mpi]

  /** One directory name: the display name trimmed, with its spaces made underscores. */
  function DirectoryName(displayName: string): (r: string)
    ensures ' ' !in r
    ensures |r| == |JavaText.Trim(displayName)|
  {
    PyText.Replace(JavaText.Trim(displayName), ' ', '_')
  }

  /** `storeName(run)`: the directory of each store type's display name, then the run id
      followed by `.prf` (a null id prints as "null"). A missing metadata record or a null
      display name is a `NullPointerException`; `display` is the record's `displayName()`. */
  function StoreName(r: Run.Run, display: MetaRecord.Meta -> Option<string>): (p: Result<seq<string>>)
    ensures p.Success? <==> forall t :: t in StoreTypes ==> t in r.meta && display(r.meta[t]).Some?
    ensures p.Success? ==> |p.value| == |StoreTypes| + 1
                           && p.value[|StoreTypes|] == JavaText.NullText(r.runId) + ".prf"
  {
    var dirs :- Directories(r, display, StoreTypes);
    Success(dirs + [JavaText.NullText(r.runId) + ".prf"])
  }

  /** The directory names of the given types, in order. */
  function Directories(r: Run.Run, display: MetaRecord.Meta -> Option<string>, ts: seq<MetaData.Type>)
    : (p: Result<seq<string>>)
    ensures p.Success? <==> forall t :: t in ts ==> t in r.meta && display(r.meta[t]).Some?
    ensures p.Success? ==> |p.value| == |ts|
                           && forall i :: 0 <= i < |ts| ==> p.value[i] == DirectoryName(display(r.meta[ts[i]]).value)
  {
    if ts == [] then Success([])
    else if ts[0] !in r.meta then Failure("NullPointerException")
    else
      match display(r.meta[ts[0]])
      case None => Failure("NullPointerException")
      case Some(name) =>
        var rest :- Directories(r, display, ts[1..]);
        assert forall t :: t in ts ==> t == ts[0] || t in ts[1..];
        Success([DirectoryName(name)] + rest)
  }

  /** Each directory name gives back the trimmed display name when underscores are turned
      back into spaces, provided the display name had no underscores of its own. */
  lemma DirectoryNameRoundTrip(displayName: string)
    requires '_' !in displayName
    ensures PyText.Replace(DirectoryName(displayName), '_', ' ') == JavaText.Trim(displayName)
  {
    var t := JavaText.Trim(displayName);
    var lead := JavaText.LeadingTrimmed(displayName);
    assert forall i :: 0 <= i < |t| ==> t[i] == displayName[lead + i];
  }

  /** The store path is the application, machine, compiler and MPI directories in that
      order, each a trimmed display name without spaces, then the run file. */
  lemma StoreNameParts(r: Run.Run, display: MetaRecord.Meta -> Option<string>)
    requires StoreName(r, display).Success?
    ensures var p := StoreName(r, display).value;
            && (forall i :: 0 <= i < |StoreTypes| ==> ' ' !in p[i])
            && p[0] == DirectoryName(display(r.meta[MetaData.Application]).value)
            && p[1] == DirectoryName(display(r.meta[MetaData.Machine]).value)
            && p[2] == DirectoryName(display(r.meta[MetaData.Compiler]).value)
            && p[3] == DirectoryName(display(r.meta[MetaData.Mpi]).value)
  {
    var dirs := Directories(r, display, StoreTypes).value;
    var p := StoreName(r, display).value;
    assert p == dirs + [JavaText.NullText(r.runId) + ".prf"];
    forall i | 0 <= i < |StoreTypes|
      ensures p[i] == dirs[i] == DirectoryName(display(r.meta[StoreTypes[i]]).value)
    {
    }
  }

  /** An application's score: its display name's closeness to the file name or to the
      application name in the file, whichever is larger. */
  function Score(app: Application.Application, fileName: string, appName: string): nat
  {
    var a := StringUtils.Closeness(Application.DisplayName(app), fileName);
    var b := StringUtils.Closeness(Application.DisplayName(app), appName);
    if a >= b then a else b
  }

  /** Every candidate's score, in order. */
  function Scores(apps: seq<Application.Application>, fileName: string, appName: string): (r: seq<nat>)
    ensures |r| == |apps|
  {
    if apps == [] then [] else [Score(apps[0], fileName, appName)] + Scores(apps[1..], fileName, appName)
  }

  /** The `j`-th score is the `j`-th candidate's. */
  lemma {:induction false} ScoresAt(apps: seq<Application.Application>, fileName: string, appName: string, j: nat)
    requires j < |apps|
    ensures Scores(apps, fileName, appName)[j] == Score(apps[j], fileName, appName)
  {
    if j > 0 {
      ScoresAt(apps[1..], fileName, appName, j - 1);
    }
  }

  /** `i` is the guess among candidates with these scores: above the threshold, no
      candidate scores more, and every earlier candidate scores less. */
  predicate IsGuess(scores: seq<nat>, i: nat) {
    && i < |scores|
    && scores[i] > AppGuessThreshold
    && (forall j :: 0 <= j < |scores| ==> scores[j] <= scores[i])
    && (forall j :: 0 <= j < i ==> scores[j] < scores[i])
  }

  /** The loop of `guessApplication` over the candidates' scores: a candidate replaces the
      best so far only when its score is above the threshold and strictly above the best
      so far, so the earliest of equal best scores is kept. */
  method PickGuess(scores: seq<nat>) returns (found: Option<nat>)
    ensures found.None? <==> forall j :: 0 <= j < |scores| ==> scores[j] <= AppGuessThreshold
    ensures found.Some? ==> IsGuess(scores, found.value)
  {
    var bestSoFar := 0;
    found := None;
    var k := 0;
    while k < |scores|
      invariant k <= |scores|
      invariant found.None? ==> bestSoFar == 0
      invariant found.None? <==> forall j :: 0 <= j < k ==> scores[j] <= AppGuessThreshold
      invariant found.Some? ==> found.value < k && bestSoFar == scores[found.value]
                                && bestSoFar > AppGuessThreshold
                                && (forall j :: 0 <= j < k ==> scores[j] <= bestSoFar)
                                && (forall j :: 0 <= j < found.value ==> scores[j] < bestSoFar)
    {
      var closeness := scores[k];
      if closeness > AppGuessThreshold && closeness > bestSoFar {
        found := Some(k);
        bestSoFar := closeness;
      }
      k := k + 1;
    }
  }

  /** `guessApplication(applications, fileName, appName)`: the first candidate with the
      highest score, if that score is above the threshold, and null otherwise. */
  method GuessApplication(apps: seq<Application.Application>, fileName: string, appName: string)
    returns (found: Option<Application.Application>)
    ensures var scores := Scores(apps, fileName, appName);
            found.None? <==> forall j :: 0 <= j < |scores| ==> scores[j] <= AppGuessThreshold
    ensures found.Some? ==> exists i :: 0 <= i < |apps| && IsGuess(Scores(apps, fileName, appName), i) && apps[i] == found.value
  {
    var scores := Scores(apps, fileName, appName);
    var at := PickGuess(scores);
    if at.None? {
      found := None;
    } else {
      var i := at.value;
      found := Some(apps[i]);
      assert IsGuess(scores, i) && scores[i] > AppGuessThreshold;
    }
  }

  /** There is at most one guess. */
  lemma GuessUnique(scores: seq<nat>, i: nat, j: nat)
    requires IsGuess(scores, i) && IsGuess(scores, j)
    ensures i == j
  {
    assert scores[i] <= scores[j] && scores[j] <= scores[i];
  }
}
