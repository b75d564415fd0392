/**
 * The runner's durable outbox: one file per idempotency key, found again by request
 * after a crash, and removed only when the reply allows it.
 */
module Outbox {
  import opened Wrappers

  type Key = string

  /** What makes two commands the same: where they go, what they do, and the digest of what they carry. */
  datatype Request = Request(route: string, operation: string, digest: string)

  const GRANT := "create_artifact_grant"

  /** A file of the outbox directory: fully written, or cut short by a crash. */
  datatype File = Whole(request: Request) | Torn

  type Files = map<Key, File>

  predicate Holds(files: Files, key: Key, request: Request) {
    key in files && files[key] == Whole(request)
  }

  /** No request has two entries. */
  ghost predicate OneEntryEach(files: Files) {
    forall k, l, r :: Holds(files, k, r) && Holds(files, l, r) ==> k == l
  }

  ghost predicate Absent(files: Files, request: Request) {
    forall k :: !Holds(files, k, request)
  }

  /** How a request ended for the runner. */
  datatype Reply = NoAnswer | Unreadable | Refused | Mismatched | Granted

  /** Grants keep their entry until a reply that matches the request; other commands drop it with any response. */
  predicate Drops(request: Request, reply: Reply) {
    if request.operation == GRANT then reply == Granted else reply != NoAnswer
  }

  lemma DropsExactly(request: Request, reply: Reply)
    ensures request.operation == "create_artifact_grant" ==> (Drops(request, reply) <==> reply == Granted)
    ensures request.operation != "create_artifact_grant" ==>
              (Drops(request, reply) <==> reply in {Unreadable, Refused, Mismatched, Granted})
  {
  }

  lemma EntryAdded(files: Files, key: Key, request: Request)
    requires OneEntryEach(files) && Absent(files, request) && key !in files
    ensures OneEntryEach(files[key := Whole(request)])
  {
    var more := files[key := Whole(request)];
    forall k, l, r | Holds(more, k, r) && Holds(more, l, r)
      ensures k == l
    {
      assert k != key ==> Holds(files, k, r);
      assert l != key ==> Holds(files, l, r);
    }
  }

  lemma EntryRemoved(files: Files, key: Key, request: Request)
    requires OneEntryEach(files) && Holds(files, key, request)
    ensures OneEntryEach(files - {key}) && Absent(files - {key}, request)
  {
    forall k, l, r | Holds(files - {key}, k, r) && Holds(files - {key}, l, r)
      ensures k == l
    {
      assert Holds(files, k, r) && Holds(files, l, r);
    }
    forall k
      ensures !Holds(files - {key}, k, request)
    {
      assert Holds(files - {key}, k, request) ==> Holds(files, k, request);
    }
  }

  class OutboxDirectory {
    var files: Files

    constructor ()
      ensures files == map[]
    {
      files := map[];
    }

    method LoadEntry(key: Key) returns (request: Option<Request>)
      ensures request.Some? <==> key in files && files[key].Whole?
      ensures request.Some? ==> Holds(files, key, request.value)
    {
      if key !in files || files[key].Torn? {
        return None;
      }
      request := Some(files[key].request);
    }

    /** Looks through the directory, in whatever order it is listed. */
    method FindExisting(names: seq<Key>, request: Request) returns (key: Option<Key>)
      requires forall k :: k in files ==> k in names
      ensures key.Some? ==> Holds(files, key.value, request)
      ensures key.None? ==> Absent(files, request)
    {
      key := None;
      var i := 0;
      while i < |names|
        invariant i <= |names|
        invariant forall j :: 0 <= j < i ==> !Holds(files, names[j], request)
      {
        var entry := LoadEntry(names[i]);
        if entry == Some(request) {
          return Some(names[i]);
        }
        i := i + 1;
      }
    }

    /** The entry of a request: the one that is there, or a new one under a fresh key. */
    method GetOrCreate(names: seq<Key>, request: Request, newKey: Key) returns (key: Key, reused: bool)
      requires forall k :: k in files ==> k in names
      requires newKey !in files && OneEntryEach(files)
      modifies this
      ensures Holds(files, key, request) && OneEntryEach(files)
      ensures reused <==> !Absent(old(files), request)
      ensures files == if reused then old(files) else old(files)[newKey := Whole(request)]
      ensures !reused ==> key == newKey
    {
      var existing := FindExisting(names, request);
      if existing.Some? {
        assert Holds(files, existing.value, request);
        return existing.value, true;
      }
      EntryAdded(files, newKey, request);
      files := files[newKey := Whole(request)];
      key, reused := newKey, false;
    }

    method Remove(key: Key) returns (ok: bool)
      modifies this
      ensures ok <==> key in old(files)
      ensures files == old(files) - {key}
    {
      ok := key in files;
      files := files - {key};
    }

    /** The grant phase of a publication, given how the request it sends ends. */
    method GrantPhase(names: seq<Key>, request: Request, newKey: Key, reply: Reply) returns (sent: Key, granted: bool)
      requires forall k :: k in files ==> k in names
      requires newKey !in files && OneEntryEach(files) && request.operation == GRANT
      modifies this
      ensures granted <==> reply == Granted
      ensures OneEntryEach(files)
      ensures !Absent(old(files), request) ==> Holds(old(files), sent, request)
      ensures Absent(old(files), request) ==> sent == newKey
      ensures granted <==> Absent(files, request)
      ensures Drops(request, reply) <==> sent !in files
      ensures !granted ==> Holds(files, sent, request)
      ensures forall k :: k != sent ==> (k in files <==> k in old(files)) && (k in files ==> files[k] == old(files)[k])
    {
      var key, reused := GetOrCreate(names, request, newKey);
      sent := key;
      if reply.NoAnswer? || reply.Unreadable? || reply.Refused? || reply.Mismatched? {
        return sent, false;
      }
      EntryRemoved(files, key, request);
      granted := Remove(key);
    }
  }
}
