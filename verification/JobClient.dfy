/** Marker-based Job ownership: Create of pkg/spawner/k8s_jobclient.go and ResolveByIdentity
  * of pkg/backend/attempt_resolver.go over the Jobs of one cluster.
  */
module JobClient {
  import opened Spec
  import opened Text
  import opened JobLabels
  import P = Placement

  const LABEL_MARKER := "spawner.io/attempt-marker"
  const LABEL_QUEUE := "kueue.x-k8s.io/queue-name"
  const ANNOTATION_RUN := "jumi.io/run-id"
  const ANNOTATION_NODE := "jumi.io/node-id"
  const ANNOTATION_ATTEMPT := "jumi.io/attempt-id"
  const ANNOTATION_MARKER := "jumi.io/attempt-marker"
  const ANNOTATION_TRACE := "jumi.io/trace-id"

  datatype Request = Request(
    namespace: string,
    jobName: string,
    marker: string,
    attemptID: string,
    runID: string,
    env: map<string, string>,
    correlationID: string,
    userLabels: map<string, string>,
    userAnnotations: map<string, string>,
    placement: Option<P.Hints>)

  datatype Job = Job(uid: string, labels: map<string, string>, annotations: map<string, string>)

  function At(m: map<string, string>, key: string): string {
    if key in m then m[key] else ""
  }

  // ---- the Job a request describes ----

  function RunIDOf(req: Request): string {
    if TrimSpace(req.runID) != "" then req.runID
    else if TrimSpace(At(req.env, "JUMI_RUN_ID")) != "" then At(req.env, "JUMI_RUN_ID")
    else ""
  }

  function NodeIDOf(req: Request): string {
    At(req.env, "JUMI_NODE_ID")
  }

  const FIXED_LABELS: map<string, string> := map[
    "app.kubernetes.io/name" := "jumi",
    "app.kubernetes.io/component" := "node-attempt",
    "app.kubernetes.io/managed-by" := "jumi-spawner",
    "jumi.io/workload-role" := "main"]

  function IdentityLabels(req: Request, lower: char -> char, hash: string -> string): map<string, string>
    requires ShortHash(hash)
  {
    map[
      "jumi.io/run-key" := IdentityLabelValue(RunIDOf(req), lower, hash),
      "jumi.io/node-key" := IdentityLabelValue(NodeIDOf(req), lower, hash),
      "jumi.io/attempt-id" := IdentityLabelValue(req.attemptID, lower, hash),
      LABEL_MARKER := IdentityLabelValue(req.marker, lower, hash)]
  }

  function SystemLabels(req: Request, lower: char -> char, hash: string -> string): map<string, string>
    requires ShortHash(hash)
  {
    FIXED_LABELS + IdentityLabels(req, lower, hash)
  }

  predicate UserMayLabel(key: string) {
    key == LABEL_QUEUE || HasPrefix(key, USER_LABEL_PREFIX)
  }

  function UserPart(labels: map<string, string>): map<string, string> {
    map k | k in labels && UserMayLabel(k) :: labels[k]
  }

  /** buildLabels: the user's map is copied key by key, in whatever order it is iterated. */
  method BuildLabels(req: Request, lower: char -> char, hash: string -> string) returns (labels: map<string, string>)
    requires ShortHash(hash)
    ensures labels == SystemLabels(req, lower, hash) + UserPart(req.userLabels)
  {
    labels := SystemLabels(req, lower, hash);
    ghost var system := labels;
    hide SystemLabels, UserPart;
    var rest := req.userLabels.Keys;
    NoUserPart(system, req.userLabels);
    while rest != {}
      invariant rest <= req.userLabels.Keys
      invariant labels == system + UserPart(req.userLabels - rest)
    {
      var k :| k in rest;
      NextUserLabel(system, req.userLabels, rest, k);
      if UserMayLabel(k) {
        labels := labels[k := req.userLabels[k]];
      }
      rest := rest - {k};
    }
    assert req.userLabels - rest == req.userLabels;
  }

  lemma NoUserPart(system: map<string, string>, labels: map<string, string>)
    ensures system + UserPart(labels - labels.Keys) == system
  {
  }

  lemma NextUserLabel(system: map<string, string>, labels: map<string, string>, rest: set<string>, k: string)
    requires k in rest && k in labels
    ensures system + UserPart(labels - (rest - {k}))
            == if UserMayLabel(k) then (system + UserPart(labels - rest))[k := labels[k]]
               else system + UserPart(labels - rest)
  {
    hide UserMayLabel;
    var done, more := UserPart(labels - rest), UserPart(labels - (rest - {k}));
    assert more == if UserMayLabel(k) then done[k := labels[k]] else done;
  }

  function Annotations(req: Request): map<string, string> {
    var base := req.userAnnotations[ANNOTATION_RUN := RunIDOf(req)][ANNOTATION_NODE := NodeIDOf(req)]
                                   [ANNOTATION_ATTEMPT := req.attemptID][ANNOTATION_MARKER := req.marker];
    if req.correlationID != "" then base[ANNOTATION_TRACE := req.correlationID] else base
  }

  ghost function BuiltJob(req: Request, uid: string, lower: char -> char, hash: string -> string): Job
    requires ShortHash(hash)
  {
    Job(uid, SystemLabels(req, lower, hash) + UserPart(req.userLabels), Annotations(req))
  }

  /** No user label or annotation can displace the two marks of ownership. */
  lemma MarksSurviveUserInput(req: Request, uid: string, lower: char -> char, hash: string -> string)
    requires ShortHash(hash)
    ensures var job := BuiltJob(req, uid, lower, hash);
            && At(job.annotations, ANNOTATION_MARKER) == req.marker
            && At(job.labels, LABEL_MARKER) == IdentityLabelValue(req.marker, lower, hash)
  {
    assert LABEL_MARKER[0] != USER_LABEL_PREFIX[0] && LABEL_MARKER[0] != LABEL_QUEUE[0];
    AnnotationKeysDiffer();
    hide IdentityLabelValue, RunIDOf, NodeIDOf;
  }

  /** A Job names its run, node and attempt as the request does, in full as annotations and as
    * labels; the request's own run id comes before the one in its environment. */
  lemma JobCarriesItsIdentity(req: Request, uid: string, lower: char -> char, hash: string -> string)
    requires ShortHash(hash)
    ensures var job := BuiltJob(req, uid, lower, hash);
            var runID := if TrimSpace(req.runID) != "" then req.runID
                         else if TrimSpace(At(req.env, "JUMI_RUN_ID")) != "" then At(req.env, "JUMI_RUN_ID") else "";
            var nodeID := At(req.env, "JUMI_NODE_ID");
            && job.uid == uid
            && At(job.annotations, ANNOTATION_RUN) == runID
            && At(job.annotations, ANNOTATION_NODE) == nodeID
            && At(job.annotations, ANNOTATION_ATTEMPT) == req.attemptID
            && (req.correlationID != "" ==> At(job.annotations, ANNOTATION_TRACE) == req.correlationID)
            && IdentityLabels(req, lower, hash)
               == map["jumi.io/run-key" := IdentityLabelValue(runID, lower, hash),
                      "jumi.io/node-key" := IdentityLabelValue(nodeID, lower, hash),
                      "jumi.io/attempt-id" := IdentityLabelValue(req.attemptID, lower, hash),
                      "spawner.io/attempt-marker" := IdentityLabelValue(req.marker, lower, hash)]
  {
    AnnotationKeysDiffer();
    hide IdentityLabelValue, TrimSpace, SystemLabels, UserPart;
  }

  lemma AnnotationKeysDiffer()
    ensures ANNOTATION_RUN != ANNOTATION_NODE && ANNOTATION_RUN != ANNOTATION_ATTEMPT
    ensures ANNOTATION_RUN != ANNOTATION_MARKER && ANNOTATION_RUN != ANNOTATION_TRACE
    ensures ANNOTATION_NODE != ANNOTATION_ATTEMPT && ANNOTATION_NODE != ANNOTATION_MARKER
    ensures ANNOTATION_NODE != ANNOTATION_TRACE && ANNOTATION_ATTEMPT != ANNOTATION_MARKER
    ensures ANNOTATION_ATTEMPT != ANNOTATION_TRACE && ANNOTATION_MARKER != ANNOTATION_TRACE
  {
    assert ANNOTATION_RUN[8] == 'r' && ANNOTATION_NODE[8] == 'n' && ANNOTATION_TRACE[8] == 't';
    assert ANNOTATION_ATTEMPT[8] == 'a' && ANNOTATION_MARKER[8] == 'a';
    assert |ANNOTATION_ATTEMPT| != |ANNOTATION_MARKER|;
  }

  /** Every label of a Job is a system label or a permitted label of the user, and all of these
    * are there. */
  lemma LabelsAreSystemOrUser(req: Request, uid: string, lower: char -> char, hash: string -> string, k: string)
    requires ShortHash(hash)
    ensures var labels := BuiltJob(req, uid, lower, hash).labels;
            var permitted := k in req.userLabels && (k == LABEL_QUEUE || USER_LABEL_PREFIX <= k);
            && (permitted ==> k in labels && labels[k] == req.userLabels[k])
            && (!permitted ==> (k in labels <==> k in FIXED_LABELS || k in IdentityLabels(req, lower, hash)))
            && (!permitted && k in IdentityLabels(req, lower, hash) ==> labels[k] == IdentityLabels(req, lower, hash)[k])
            && (!permitted && k in FIXED_LABELS && k !in IdentityLabels(req, lower, hash) ==> labels[k] == FIXED_LABELS[k])
  {
    hide IdentityLabels, Annotations;
  }

  // ---- ownership ----

  /** existingAttemptMarkerMatches */
  predicate MarkerMatches(job: Job, marker: string) {
    At(job.annotations, ANNOTATION_MARKER) == marker || At(job.labels, LABEL_MARKER) == marker
  }

  datatype ReadAnswer = ReadOk(job: Job) | ReadNotFound | ReadFailed
  datatype Outcome = Unknown | Found(uid: string) | AbsentNow | Conflict

  /** ResolveByIdentity once the identity is derived: one read, then a classification. */
  function ResolveByIdentity(marker: string, read: ReadAnswer): Outcome {
    match read
    case ReadNotFound => AbsentNow
    case ReadFailed => Unknown
    case ReadOk(job) =>
      if marker == "" then Unknown
      else if At(job.annotations, ANNOTATION_MARKER) != marker then Conflict
      else Found(job.uid)
  }

  /** What each outcome of a lookup means: absent only if the read says so, found or in conflict by
    * the full marker annotation alone, and unknown in every other case, an empty marker included. */
  lemma OutcomeMeans(marker: string, read: ReadAnswer)
    ensures ResolveByIdentity(marker, read) == AbsentNow <==> read.ReadNotFound?
    ensures forall uid :: ResolveByIdentity(marker, read) == Found(uid) <==>
              && read.ReadOk? && read.job.uid == uid && marker != ""
              && ANNOTATION_MARKER in read.job.annotations && read.job.annotations[ANNOTATION_MARKER] == marker
    ensures ResolveByIdentity(marker, read) == Conflict <==>
              && read.ReadOk? && marker != ""
              && (ANNOTATION_MARKER in read.job.annotations ==> read.job.annotations[ANNOTATION_MARKER] != marker)
    ensures ResolveByIdentity(marker, read) == Unknown <==> read.ReadFailed? || (read.ReadOk? && marker == "")
  {
  }

  ghost predicate CreateAdopts(other: Request, uid: string, marker: string, lower: char -> char, hash: string -> string)
    requires ShortHash(hash)
  {
    MarkerMatches(BuiltJob(other, uid, lower, hash), marker)
  }

  ghost predicate ResolveFinds(other: Request, uid: string, marker: string, lower: char -> char, hash: string -> string)
    requires ShortHash(hash)
  {
    ResolveByIdentity(marker, ReadOk(BuiltJob(other, uid, lower, hash))) == Found(uid)
  }

  /** Create and ResolveByIdentity agree, for this marker, on every Job this client can have built. */
  ghost predicate OwnershipAgrees(marker: string, lower: char -> char, hash: string -> string)
    requires ShortHash(hash)
  {
    forall other, uid ::
      && (CreateAdopts(other, uid, marker, lower, hash) <==> other.marker == marker)
      && (ResolveFinds(other, uid, marker, lower, hash) <==> other.marker == marker)
  }

  /** The label fallback adopts foreign Jobs exactly for markers that are plain label values:
    * such a marker is also the label of a marker differing only by a blank. */
  lemma OwnershipAgreesIffNotALabel(marker: string, lower: char -> char, hash: string -> string)
    requires Lowers(lower) && ShortHash(hash)
    ensures OwnershipAgrees(marker, lower, hash) <==> marker != "" && !PlainLabel(marker)
  {
    if marker == "" {
      Witness("", "u", "", lower, hash);
    } else if PlainLabel(marker) {
      PlainLabelsAreAnswered(marker, lower, hash);
      Witness(" " + marker, "u", marker, lower, hash);
    } else {
      forall other, uid
        ensures CreateAdopts(other, uid, marker, lower, hash) <==> other.marker == marker
        ensures ResolveFinds(other, uid, marker, lower, hash) <==> other.marker == marker
      {
        MarksSurviveUserInput(other, uid, lower, hash);
        IdentityLabelIsPlain(other.marker, lower, hash);
        hide IdentityLabelValue, PlainLabel, SystemLabels, Annotations;
      }
    }
  }

  /** A Job built for marker `m` shows what happens to a request with marker `q`. */
  lemma Witness(m: string, uid: string, q: string, lower: char -> char, hash: string -> string)
    requires ShortHash(hash)
    requires m == q == "" || (m != q && q != "" && IdentityLabelValue(m, lower, hash) == q)
    ensures !OwnershipAgrees(q, lower, hash)
  {
    var other := Request("ns", "job", m, "a", "r", map[], "", map[], map[], None);
    hide IdentityLabelValue, SystemLabels, Annotations, UserPart, BuiltJob;
    MarksSurviveUserInput(other, uid, lower, hash);
    assert if q == "" then !ResolveFinds(other, uid, q, lower, hash) && other.marker == q
           else CreateAdopts(other, uid, q, lower, hash) && other.marker != q;
  }

  /** The spawner's markers have 64 characters, one more than a label may. */
  lemma LongMarkersAgree(marker: string, lower: char -> char, hash: string -> string)
    requires Lowers(lower) && ShortHash(hash) && |marker| > 63
    ensures OwnershipAgrees(marker, lower, hash)
  {
    OwnershipAgreesIffNotALabel(marker, lower, hash);
  }

  // ---- validating a request ----

  /** IsValidLabelValue of the Kubernetes library. */
  predicate LibraryLabelValue(v: string) {
    v == "" || LabelValue(v)
  }

  /** `qualified` stands for IsQualifiedName of the Kubernetes library, which accepts the keys
    * this client sets itself. */
  ghost predicate AcceptsSystemKeys(qualified: string -> bool) {
    && qualified("app.kubernetes.io/name") && qualified("app.kubernetes.io/component")
    && qualified("app.kubernetes.io/managed-by") && qualified("jumi.io/run-key") && qualified("jumi.io/node-key")
    && qualified("jumi.io/attempt-id") && qualified("jumi.io/workload-role") && qualified(LABEL_MARKER)
    && qualified(LABEL_QUEUE)
  }

  predicate UserLabelOk(k: string, v: string, qualified: string -> bool) {
    if k == LABEL_QUEUE then LibraryLabelValue(v)
    else HasPrefix(k, USER_LABEL_PREFIX) && qualified(k) && LibraryLabelValue(v)
  }

  predicate UserLabelsOk(labels: map<string, string>, qualified: string -> bool) {
    forall k | k in labels :: UserLabelOk(k, labels[k], qualified)
  }

  predicate Identified(req: Request) {
    TrimSpace(req.attemptID) != "" && TrimSpace(RunIDOf(req)) != "" && TrimSpace(NodeIDOf(req)) != ""
  }

  predicate Acceptable(req: Request, qualified: string -> bool) {
    Identified(req) && P.ValidPlacement(req.placement) && UserLabelsOk(req.userLabels, qualified)
  }

  /** The labels built from permitted user labels never fail the second check, whatever the ids are. */
  lemma BuiltLabelsAreValid(req: Request, qualified: string -> bool,
                            lower: char -> char, hash: string -> string, k: string)
    requires Lowers(lower) && ShortHash(hash) && AcceptsSystemKeys(qualified) && UserLabelsOk(req.userLabels, qualified)
    requires k in SystemLabels(req, lower, hash) + UserPart(req.userLabels)
    ensures qualified(k) && LibraryLabelValue((SystemLabels(req, lower, hash) + UserPart(req.userLabels))[k])
  {
    if k in UserPart(req.userLabels) {
      assert UserLabelOk(k, req.userLabels[k], qualified);
    } else {
      SystemLabelIsValid(req, qualified, lower, hash, k);
    }
    hide SystemLabels, LabelValue, AcceptsSystemKeys;
  }

  lemma SystemLabelIsValid(req: Request, qualified: string -> bool,
                           lower: char -> char, hash: string -> string, k: string)
    requires Lowers(lower) && ShortHash(hash) && AcceptsSystemKeys(qualified) && k in SystemLabels(req, lower, hash)
    ensures qualified(k) && LabelValue(SystemLabels(req, lower, hash)[k])
  {
    hide IdentityLabels, LabelValue;
    if k in IdentityLabels(req, lower, hash) {
      IdentityLabelIsValid(req, qualified, lower, hash, k);
    } else {
      FixedLabelIsValid(qualified, k);
    }
    hide AcceptsSystemKeys;
  }

  lemma IdentityLabelIsValid(req: Request, qualified: string -> bool,
                             lower: char -> char, hash: string -> string, k: string)
    requires Lowers(lower) && ShortHash(hash) && AcceptsSystemKeys(qualified) && k in IdentityLabels(req, lower, hash)
    ensures qualified(k) && LabelValue(IdentityLabels(req, lower, hash)[k])
  {
    hide IdentityLabelValue, LabelValue, RunIDOf, NodeIDOf;
    IdentityLabelIsPlain(RunIDOf(req), lower, hash);
    IdentityLabelIsPlain(NodeIDOf(req), lower, hash);
    IdentityLabelIsPlain(req.attemptID, lower, hash);
    IdentityLabelIsPlain(req.marker, lower, hash);
  }

  lemma FixedLabelIsValid(qualified: string -> bool, k: string)
    requires AcceptsSystemKeys(qualified) && k in FIXED_LABELS
    ensures qualified(k) && LabelValue(FIXED_LABELS[k])
  {
    FixedValuesAreValid();
    hide LabelValue;
  }

  lemma FixedValuesAreValid()
    ensures LabelValue("jumi") && LabelValue("node-attempt") && LabelValue("jumi-spawner") && LabelValue("main")
  {
  }

  method CheckUserLabels(labels: map<string, string>, qualified: string -> bool) returns (ok: bool)
    ensures ok <==> UserLabelsOk(labels, qualified)
  {
    hide UserLabelOk;
    var rest := labels.Keys;
    while rest != {}
      invariant rest <= labels.Keys
      invariant forall k | k in labels && k !in rest :: UserLabelOk(k, labels[k], qualified)
    {
      var k :| k in rest;
      if !UserLabelOk(k, labels[k], qualified) {
        return false;
      }
      rest := rest - {k};
    }
    return true;
  }

  /** validateK8sJobCreateRequest, with its second loop over the labels it builds. */
  method ValidateCreateRequest(req: Request, qualified: string -> bool, lower: char -> char, hash: string -> string)
    returns (ok: bool)
    requires Lowers(lower) && ShortHash(hash) && AcceptsSystemKeys(qualified)
    ensures ok <==> Acceptable(req, qualified)
  {
    hide SystemLabels, UserPart, UserLabelsOk, AcceptsSystemKeys, LibraryLabelValue;
    if !Identified(req) || !P.ValidPlacement(req.placement) {
      return false;
    }
    ok := CheckUserLabels(req.userLabels, qualified);
    if !ok {
      return;
    }
    var labels := BuildLabels(req, lower, hash);
    var rest := labels.Keys;
    while rest != {}
      invariant rest <= labels.Keys
    {
      var k :| k in rest;
      BuiltLabelsAreValid(req, qualified, lower, hash, k);
      if !qualified(k) || !LibraryLabelValue(labels[k]) {
        return false;
      }
      rest := rest - {k};
    }
  }

  // ---- submitting ----

  datatype CreateAnswer = Rejected | Created(uid: string) | Adopted(uid: string) | Foreign | ApiFailed

  /** What the API server does with one call, apart from the Jobs it stores. */
  datatype ApiFault = Healthy | CreateFails | GetFails

  class Cluster {
    var jobs: map<(string, string), Job>

    /** Create; `uid` is what the server would assign. */
    method Create(req: Request, uid: string, fault: ApiFault, qualified: string -> bool,
                  lower: char -> char, hash: string -> string)
      returns (r: CreateAnswer)
      requires Lowers(lower) && ShortHash(hash) && AcceptsSystemKeys(qualified)
      modifies this
      ensures var key := (req.namespace, req.jobName);
              if !Acceptable(req, qualified) then r == Rejected && jobs == old(jobs)
              else if fault.CreateFails? then r == ApiFailed && jobs == old(jobs)
              else if key !in old(jobs) then
                r == Created(uid) && jobs == old(jobs)[key := BuiltJob(req, uid, lower, hash)]
              else
                && jobs == old(jobs)
                && (fault.GetFails? ==> r == ApiFailed)
                && (fault.Healthy? ==>
                      r == if MarkerMatches(old(jobs)[key], req.marker) then Adopted(old(jobs)[key].uid) else Foreign)
    {
      hide SystemLabels, UserPart, Acceptable, Annotations, AcceptsSystemKeys;
      var ok := ValidateCreateRequest(req, qualified, lower, hash);
      if !ok {
        return Rejected;
      }
      var labels := BuildLabels(req, lower, hash);
      var key := (req.namespace, req.jobName);
      if fault.CreateFails? {
        return ApiFailed;
      }
      if key !in jobs {
        jobs := jobs[key := Job(uid, labels, Annotations(req))];
        return Created(uid);
      }
      if fault.GetFails? {
        return ApiFailed;
      }
      if !MarkerMatches(jobs[key], req.marker) {
        return Foreign;
      }
      return Adopted(jobs[key].uid);
    }

    /** ResolveByIdentity on the cluster: one read, no change. */
    method Resolve(namespace: string, jobName: string, marker: string, readFails: bool) returns (r: Outcome)
      ensures r == if readFails then Unknown
                   else if (namespace, jobName) !in jobs then AbsentNow
                   else if marker == "" then Unknown
                   else if At(jobs[(namespace, jobName)].annotations, ANNOTATION_MARKER) == marker
                   then Found(jobs[(namespace, jobName)].uid)
                   else Conflict
    {
      var read: ReadAnswer;
      if readFails {
        read := ReadFailed;
      } else if (namespace, jobName) in jobs {
        read := ReadOk(jobs[(namespace, jobName)]);
      } else {
        read := ReadNotFound;
      }
      return ResolveByIdentity(marker, read);
    }

    /** What was created is found again, by anyone who knows its name and marker, and by no other
      * marker. */
    method CreateThenResolve(req: Request, uid: string, marker: string, qualified: string -> bool,
                             lower: char -> char, hash: string -> string)
      returns (created: CreateAnswer, outcome: Outcome)
      requires Lowers(lower) && ShortHash(hash) && AcceptsSystemKeys(qualified)
      requires Acceptable(req, qualified) && (req.namespace, req.jobName) !in jobs && marker != ""
      modifies this
      ensures created == Created(uid)
      ensures outcome == if marker == req.marker then Found(uid) else Conflict
    {
      hide BuiltJob, Acceptable, AcceptsSystemKeys;
      created := Create(req, uid, Healthy, qualified, lower, hash);
      BuiltJobIsOwn(req, uid, lower, hash);
      outcome := Resolve(req.namespace, req.jobName, marker, false);
    }

    /** A retried submission is idempotent: the second call adopts the Job of the first. */
    method CreateTwice(req: Request, uid: string, uid': string, qualified: string -> bool,
                       lower: char -> char, hash: string -> string)
      returns (first: CreateAnswer, second: CreateAnswer)
      requires Lowers(lower) && ShortHash(hash) && AcceptsSystemKeys(qualified)
      requires (req.namespace, req.jobName) !in jobs
      modifies this
      ensures if Acceptable(req, qualified) then
                && first == Created(uid) && second == Adopted(uid)
                && jobs == old(jobs)[(req.namespace, req.jobName) := BuiltJob(req, uid, lower, hash)]
              else first == second == Rejected && jobs == old(jobs)
    {
      hide BuiltJob, Acceptable, AcceptsSystemKeys;
      first := Create(req, uid, Healthy, qualified, lower, hash);
      BuiltJobIsOwn(req, uid, lower, hash);
      second := Create(req, uid', Healthy, qualified, lower, hash);
    }
  }

  lemma BuiltJobIsOwn(req: Request, uid: string, lower: char -> char, hash: string -> string)
    requires ShortHash(hash)
    ensures MarkerMatches(BuiltJob(req, uid, lower, hash), req.marker) && BuiltJob(req, uid, lower, hash).uid == uid
    ensures At(BuiltJob(req, uid, lower, hash).annotations, ANNOTATION_MARKER) == req.marker
  {
    MarksSurviveUserInput(req, uid, lower, hash);
  }
}
