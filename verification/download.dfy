/**
 One download as `downloadWorker` (main.go) performs it. The network is not
 modelled: an `Exchange` holds the answers the environment gives to the
 worker's questions, and `Fetch` turns them into the result the worker sends.
 */
module Download {
  import opened Options

  /** `http.StatusOK`. */
  const StatusOK: int := 200

  /** The checks a download passes through, in the order the worker makes them. */
  const StageCount: nat := 5

  /** Why a download failed; one kind per stage. */
  datatype Failure =
    | RequestConstruction    // `http.NewRequest` refused the URL
    | Transport              // `client.Do` failed (a 45 s timeout before the headers arrive lands here; one while reading the body is `BodyRead`)
    | BadStatus(status: int) // the response status was not 200
    | BodyRead               // reading the response body failed
    | EmptyBody              // the body was read but holds no bytes

  /** The environment's answers for one URL. */
  datatype Exchange = Exchange(
    requestBuilt: bool,
    transportOk: bool,
    status: int,
    bodyRead: bool,
    body: string)

  /** `downloadResult`: the URL, the body on success, the error otherwise. */
  datatype DownloadResult = DownloadResult(url: string, content: string, err: Option<Failure>)
  {
    predicate Succeeded() {
      err.None?
    }
  }

  /** Whether the answers pass check number `stage`. */
  predicate Passes(ex: Exchange, stage: nat)
    requires stage < StageCount
  {
    match stage
    case 0 => ex.requestBuilt
    case 1 => ex.transportOk
    case 2 => ex.status == StatusOK
    case 3 => ex.bodyRead
    case _ => |ex.body| > 0
  }

  /** The stage a failure kind reports. */
  function StageOf(f: Failure): (k: nat)
    ensures k < StageCount
  {
    match f
    case RequestConstruction => 0
    case Transport => 1
    case BadStatus(_) => 2
    case BodyRead => 3
    case EmptyBody => 4
  }

  predicate AllStagesPass(ex: Exchange) {
    forall k | 0 <= k < StageCount :: Passes(ex, k)
  }

  /** Check `stage` is the first one the answers fail. */
  predicate FailsFirstAt(ex: Exchange, stage: nat)
    requires stage < StageCount
  {
    !Passes(ex, stage) && forall k | 0 <= k < stage :: Passes(ex, k)
  }

  /** The body of the worker's loop for one URL. */
  function Fetch(url: string, ex: Exchange): (r: DownloadResult)
    ensures r.url == url
    ensures r.Succeeded() <==> AllStagesPass(ex)
    ensures r.Succeeded() ==> r.content == ex.body && |r.content| > 0
    ensures !r.Succeeded() ==> r.content == [] && FailsFirstAt(ex, StageOf(r.err.value))
    ensures r.err.Some? && r.err.value.BadStatus? ==> r.err.value.status == ex.status
  {
    StagesInOrder(ex);
    if !ex.requestBuilt then DownloadResult(url, [], Some(RequestConstruction))
    else if !ex.transportOk then DownloadResult(url, [], Some(Transport))
    else if ex.status != StatusOK then DownloadResult(url, [], Some(BadStatus(ex.status)))
    else if !ex.bodyRead then DownloadResult(url, [], Some(BodyRead))
    else if |ex.body| == 0 then DownloadResult(url, [], Some(EmptyBody))
    else DownloadResult(url, ex.body, None)
  }

  /** The five checks spelled out, in the worker's order. */
  lemma StagesInOrder(ex: Exchange)
    ensures AllStagesPass(ex)
        <==> ex.requestBuilt && ex.transportOk && ex.status == StatusOK && ex.bodyRead && |ex.body| > 0
    ensures FailsFirstAt(ex, 0) <==> !ex.requestBuilt
    ensures FailsFirstAt(ex, 1) <==> ex.requestBuilt && !ex.transportOk
    ensures FailsFirstAt(ex, 2) <==> ex.requestBuilt && ex.transportOk && ex.status != StatusOK
    ensures FailsFirstAt(ex, 3) <==> ex.requestBuilt && ex.transportOk && ex.status == StatusOK && !ex.bodyRead
    ensures FailsFirstAt(ex, 4)
        <==> ex.requestBuilt && ex.transportOk && ex.status == StatusOK && ex.bodyRead && |ex.body| == 0
  {
    assert Passes(ex, 0) && Passes(ex, 1) && Passes(ex, 2) && Passes(ex, 3) && Passes(ex, 4)
       <==> ex.requestBuilt && ex.transportOk && ex.status == StatusOK && ex.bodyRead && |ex.body| > 0;
  }

  /** At most one stage is the first to fail. */
  lemma FirstFailureUnique(ex: Exchange, j: nat, k: nat)
    requires j < StageCount && k < StageCount
    requires FailsFirstAt(ex, j) && FailsFirstAt(ex, k)
    ensures j == k
  {
  }

  /** The error a download reports is decided by the first check it fails, and by nothing else. */
  lemma FetchReportsFirstFailure(url: string, ex: Exchange, stage: nat)
    requires stage < StageCount
    ensures FailsFirstAt(ex, stage) <==> (!Fetch(url, ex).Succeeded() && StageOf(Fetch(url, ex).err.value) == stage)
  {
    var r := Fetch(url, ex);
    assert FailsFirstAt(ex, stage) ==> !AllStagesPass(ex);
    if FailsFirstAt(ex, stage) && !r.Succeeded() {
      FirstFailureUnique(ex, stage, StageOf(r.err.value));
    }
  }

}
