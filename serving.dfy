/**
 * A process serving conversion requests one after another against one backend. The store
 * is the only state shared between requests, so this is where artifact ids must stay
 * unique and artifacts must stay retrievable.
 */
module Serving {
  import opened Base
  import opened Conversion

  /** One request to `/` with the UUID that `uuid.uuid4()` returns while handling it. */
  datatype Submission = Submission(request: Request, uuid: string)

  /** The pages rendered, in order, and the backend's final content. */
  datatype Run = Run(outcomes: seq<Outcome>, store: map<string, Bytes>)

  /**
   * Serve the submissions in order, each one seeing the store the previous one left. No
   * handler deletes a file, so every name of the starting store is still there at the end.
   */
  function Serve(backend: Backend, store: map<string, Bytes>, subs: seq<Submission>, svc: Services): (r: Run)
    ensures |r.outcomes| == |subs|
    ensures store.Keys <= r.store.Keys
    decreases |subs|
  {
    if subs == [] then Run([], store)
    else
      var reply := Respond(backend, subs[0].request, svc, subs[0].uuid);
      var rest := Serve(backend, Commit(store, reply), subs[1..], svc);
      Run([reply.outcome] + rest.outcomes, rest.store)
  }

  /** No two submissions share a UUID. */
  ghost predicate DistinctUuids(subs: seq<Submission>)
  {
    forall i, j :: 0 <= i < j < |subs| ==> subs[i].uuid != subs[j].uuid
  }

  /** No name the submissions could store as an artifact is already present. */
  ghost predicate IdsAbsentFrom(store: map<string, Bytes>, subs: seq<Submission>)
  {
    forall i :: 0 <= i < |subs| ==> UniqueFilename(subs[i].uuid) !in store
  }

  /**
   * No saved upload can take an artifact's name: the sanitized name of a ".txt" upload does
   * not end with ".mp3" (the sanitizer keeps the "txt" ending of such names).
   */
  ghost predicate UploadNamesAreNotAudio(subs: seq<Submission>, svc: Services)
  {
    forall i :: 0 <= i < |subs| && subs[i].request.Post? && IsTextUpload(subs[i].request.file) ==>
      !EndsWith(svc.sanitize(subs[i].request.file.value.filename), ".mp3")
  }

  /** The artifact ids of a run are fresh: the conditions a random UUID meets in practice. */
  ghost predicate FreshIds(store: map<string, Bytes>, subs: seq<Submission>, svc: Services)
  {
    DistinctUuids(subs) && IdsAbsentFrom(store, subs) && UploadNamesAreNotAudio(subs, svc)
  }

  /** The two read-backs agree on every upload of the run. */
  ghost predicate ReadBacksAgreeOn(subs: seq<Submission>, svc: Services)
  {
    forall i :: 0 <= i < |subs| ==> ReadBacksAgree(subs[i].request, svc)
  }

  /** The reply to submission i, which does not depend on the store. */
  function ReplyAt(backend: Backend, subs: seq<Submission>, svc: Services, i: nat): (r: Reply)
    requires i < |subs|
  {
    Respond(backend, subs[i].request, svc, subs[i].uuid)
  }

  /** The i-th page of a run is the ladder's answer to the i-th request alone. */
  lemma {:induction false} ServeOutcomeAt(backend: Backend, store: map<string, Bytes>,
                                          subs: seq<Submission>, svc: Services, i: nat)
    requires i < |subs|
    ensures Serve(backend, store, subs, svc).outcomes[i] == ReplyAt(backend, subs, svc, i).outcome
    decreases |subs|
  {
    if i > 0 {
      var reply := Respond(backend, subs[0].request, svc, subs[0].uuid);
      ServeOutcomeAt(backend, Commit(store, reply), subs[1..], svc, i - 1);
      assert subs[1..][i - 1] == subs[i];
    }
  }

  /**
   * Where the read-backs agree, the memory backend runs exactly as it would with the
   * directory's read-back.
   */
  lemma {:induction false} MemoryRunWithAgreeingReadBacks(store: map<string, Bytes>, subs: seq<Submission>,
                                                          svc: Services)
    requires ReadBacksAgreeOn(subs, svc)
    ensures Serve(Memory, store, subs, svc) == Serve(Memory, store, subs, svc.(decodeUtf8 := svc.readSaved))
    decreases |subs|
  {
    if subs != [] {
      BackendOnlyDecidesTheUploadSave(subs[0].request, svc, subs[0].uuid);
      var next := Commit(store, ReplyAt(Memory, subs, svc, 0));
      assert ReadBacksAgreeOn(subs[1..], svc) by {
        forall j | 0 <= j < |subs[1..]| ensures subs[1..][j] == subs[j + 1] { }
      }
      MemoryRunWithAgreeingReadBacks(next, subs[1..], svc);
    }
  }

  /**
   * The directory backend renders the pages the memory backend would with the directory's
   * read-back; so both render the same pages when the read-backs agree on every upload.
   */
  lemma {:induction false} BackendsRenderTheSamePages(dirStore: map<string, Bytes>, memStore: map<string, Bytes>,
                                                      subs: seq<Submission>, svc: Services)
    ensures Serve(Directory, dirStore, subs, svc).outcomes
         == Serve(Memory, memStore, subs, svc.(decodeUtf8 := svc.readSaved)).outcomes
    ensures ReadBacksAgreeOn(subs, svc) ==>
      Serve(Directory, dirStore, subs, svc).outcomes == Serve(Memory, memStore, subs, svc).outcomes
  {
    var same := svc.(decodeUtf8 := svc.readSaved);
    var d := Serve(Directory, dirStore, subs, svc).outcomes;
    var m := Serve(Memory, memStore, subs, same).outcomes;
    forall i | 0 <= i < |subs| ensures d[i] == m[i] {
      ServeOutcomeAt(Directory, dirStore, subs, svc, i);
      ServeOutcomeAt(Memory, memStore, subs, same, i);
      BackendOnlyDecidesTheUploadSave(subs[i].request, svc, subs[i].uuid);
    }
    if ReadBacksAgreeOn(subs, svc) {
      MemoryRunWithAgreeingReadBacks(memStore, subs, svc);
    }
  }

  /** Two successful conversions, even of the same text and target, get distinct ids. */
  lemma {:induction false} DistinctArtifactIds(backend: Backend, store: map<string, Bytes>,
                                               subs: seq<Submission>, svc: Services, i: nat, j: nat)
    requires DistinctUuids(subs)
    requires i < j < |subs|
    requires Serve(backend, store, subs, svc).outcomes[i].Success?
    requires Serve(backend, store, subs, svc).outcomes[j].Success?
    ensures Serve(backend, store, subs, svc).outcomes[i].audio != Serve(backend, store, subs, svc).outcomes[j].audio
  {
    ServeOutcomeAt(backend, store, subs, svc, i);
    ServeOutcomeAt(backend, store, subs, svc, j);
    if UniqueFilename(subs[i].uuid) == UniqueFilename(subs[j].uuid) {
      UniqueFilenameInjective(subs[i].uuid, subs[j].uuid);
    }
  }

  /** After one request the backend holds at most its upload and its artifact besides what it held. */
  lemma CommitKeys(backend: Backend, store: map<string, Bytes>, req: Request, svc: Services, uuid: string)
    ensures var r := Respond(backend, req, svc, uuid);
      forall k :: k in Commit(store, r) ==>
        k in store || k == UniqueFilename(uuid) || (r.saved.Some? && k == r.saved.value.name)
  {
  }

  /** An entry no later request writes keeps its bytes to the end of the run. */
  lemma {:induction false} ServeKeepsUntouched(backend: Backend, store: map<string, Bytes>,
                                               subs: seq<Submission>, svc: Services, k: string)
    requires k in store && EndsWith(k, ".mp3")
    requires forall j :: 0 <= j < |subs| ==> UniqueFilename(subs[j].uuid) != k
    requires UploadNamesAreNotAudio(subs, svc)
    ensures k in Serve(backend, store, subs, svc).store
    ensures Serve(backend, store, subs, svc).store[k] == store[k]
    decreases |subs|
  {
    if subs != [] {
      var reply := Respond(backend, subs[0].request, svc, subs[0].uuid);
      var next := Commit(store, reply);
      if reply.saved.Some? {
        assert !EndsWith(reply.saved.value.name, ".mp3");
      }
      assert k in next && next[k] == store[k];
      forall j | 0 <= j < |subs[1..]| ensures UniqueFilename(subs[1..][j].uuid) != k {
        assert subs[1..][j] == subs[j + 1];
      }
      assert UploadNamesAreNotAudio(subs[1..], svc) by {
        forall j | 0 <= j < |subs[1..]| ensures subs[1..][j] == subs[j + 1] { }
      }
      ServeKeepsUntouched(backend, next, subs[1..], svc, k);
    }
  }

  /** Freshness is kept from one request to the next. */
  lemma FreshIdsStep(backend: Backend, store: map<string, Bytes>, subs: seq<Submission>, svc: Services)
    requires subs != [] && FreshIds(store, subs, svc)
    ensures FreshIds(Commit(store, ReplyAt(backend, subs, svc, 0)), subs[1..], svc)
  {
  }

  /**
   * Every artifact a run reports is retrievable at the end, with the bytes synthesized for
   * its request: later requests never overwrite it.
   */
  lemma {:induction false} ArtifactsStayRetrievable(backend: Backend, store: map<string, Bytes>,
                                                    subs: seq<Submission>, svc: Services, i: nat)
    requires FreshIds(store, subs, svc)
    requires i < |subs| && Serve(backend, store, subs, svc).outcomes[i].Success?
    ensures var run := Serve(backend, store, subs, svc);
      var id := run.outcomes[i].audio;
      id in run.store && ReplyAt(backend, subs, svc, i).artifact == Some(Write(id, run.store[id]))
    decreases |subs|
  {
    var reply := ReplyAt(backend, subs, svc, 0);
    var next := Commit(store, reply);
    ServeOutcomeAt(backend, store, subs, svc, i);
    FreshIdsStep(backend, store, subs, svc);
    if i == 0 {
      var id := UniqueFilename(subs[0].uuid);
      assert id in next && next[id] == reply.artifact.value.bytes;
      forall j | 0 <= j < |subs[1..]| ensures UniqueFilename(subs[1..][j].uuid) != id {
        assert subs[1..][j] == subs[j + 1];
      }
      ServeKeepsUntouched(backend, next, subs[1..], svc, id);
    } else {
      ServeOutcomeAt(backend, next, subs[1..], svc, i - 1);
      assert subs[1..][i - 1] == subs[i];
      ArtifactsStayRetrievable(backend, next, subs[1..], svc, i - 1);
    }
  }

  /** The memory backend ends with what it held plus the reported artifacts, and no upload. */
  lemma {:induction false} MemoryHoldsOnlyArtifacts(store: map<string, Bytes>, subs: seq<Submission>,
                                                    svc: Services, k: string)
    requires k in Serve(Memory, store, subs, svc).store
    ensures var run := Serve(Memory, store, subs, svc);
      k in store || exists i :: 0 <= i < |subs| && run.outcomes[i].Success? && run.outcomes[i].audio == k
    decreases |subs|
  {
    if subs != [] {
      var reply := ReplyAt(Memory, subs, svc, 0);
      var next := Commit(store, reply);
      var run := Serve(Memory, store, subs, svc);
      MemoryHoldsOnlyArtifacts(next, subs[1..], svc, k);
      if k !in store {
        if k in next {
          MemoryStoresOnlyArtifacts(store, subs[0].request, svc, subs[0].uuid);
          assert run.outcomes[0].Success? && run.outcomes[0].audio == k;
        } else {
          var rest := Serve(Memory, next, subs[1..], svc);
          var i :| 0 <= i < |subs[1..]| && rest.outcomes[i].Success? && rest.outcomes[i].audio == k;
          assert run.outcomes[i + 1] == rest.outcomes[i];
        }
      }
    }
  }

  /**
   * The two backends agree on every artifact id: the same pages, and each reported id holds
   * the same audio in both stores, once memory reads uploads as the directory does, and so
   * whenever the read-backs agree. (The directory may also hold uploads; memory never does.)
   */
  lemma BackendsAgreeOnArtifacts(dirStore: map<string, Bytes>, memStore: map<string, Bytes>,
                                 subs: seq<Submission>, svc: Services, i: nat)
    requires FreshIds(dirStore, subs, svc) && FreshIds(memStore, subs, svc)
    requires i < |subs| && Serve(Directory, dirStore, subs, svc).outcomes[i].Success?
    ensures var d := Serve(Directory, dirStore, subs, svc);
      var m := Serve(Memory, memStore, subs, svc.(decodeUtf8 := svc.readSaved));
      var id := d.outcomes[i].audio;
      d.outcomes == m.outcomes && id in d.store && id in m.store && d.store[id] == m.store[id]
    ensures ReadBacksAgreeOn(subs, svc) ==>
      var d := Serve(Directory, dirStore, subs, svc);
      var m := Serve(Memory, memStore, subs, svc);
      var id := d.outcomes[i].audio;
      d.outcomes == m.outcomes && id in d.store && id in m.store && d.store[id] == m.store[id]
  {
    var same := svc.(decodeUtf8 := svc.readSaved);
    assert FreshIds(memStore, subs, same);
    BackendsRenderTheSamePages(dirStore, memStore, subs, svc);
    ArtifactsStayRetrievable(Directory, dirStore, subs, svc, i);
    ArtifactsStayRetrievable(Memory, memStore, subs, same, i);
    BackendOnlyDecidesTheUploadSave(subs[i].request, svc, subs[i].uuid);
    if ReadBacksAgreeOn(subs, svc) {
      MemoryRunWithAgreeingReadBacks(memStore, subs, svc);
    }
  }
}
