/**
 * `DockerService` (app/services/docker_service.py): the container listing
 * with its name filter and projection, and the log-source lookup.
 *
 * The Docker engine behind the client is abstract: what listing all
 * containers gives (the containers in listing order, or an `APIError`),
 * what looking up each container's image gives, and what
 * `containers.get(id).logs(...)` gives for each identifier.
 */
module DockerService {
  import opened Text

  /** One step of the blocking log iterator: a raw chunk, or the iterator raising. */
  datatype SourceStep = Chunk(data: seq<Byte>) | ReadFailed(message: string)

  /**
   * What `c.image` gives: the engine looks the container's image up, and
   * either finds it (with its tags) or raises (the image was removed, or the
   * engine failed).
   */
  datatype ImageLookup = ImageFound(tags: seq<string>) | ImageLookupRaised(message: string)

  /** A container as the engine reports it, with what looking up its image gives. */
  datatype ContainerRecord = ContainerRecord(
    shortId: string, name: string, status: string, image: ImageLookup, attrs: map<string, string>)

  /** The dictionary `list_containers` builds for one container. */
  datatype ContainerInfo = ContainerInfo(id: string, name: string, status: string, image: string, created: string)

  /**
   * What `containers.list(all=True)` gives: the containers, or `APIError`.
   * The engine's other exceptions, which `list_containers` does not catch,
   * are not modelled.
   */
  datatype Listing = Listed(containers: seq<ContainerRecord>) | ListApiError

  /**
   * What a call of `list_containers` gives its caller: the dictionaries, or
   * the exception an image lookup raised, which nothing in it catches.
   */
  datatype ListOutcome = ListReturned(infos: seq<ContainerInfo>) | ListRaised(message: string)

  /**
   * What looking a container up and opening its log stream gives: the source,
   * `NotFound` or `APIError`. The engine's other exceptions, which
   * `stream_logs` does not catch, are not modelled.
   */
  datatype Lookup = LogsOpened(source: seq<SourceStep>) | LookupNotFound | LookupApiError(explanation: string, text: string)

  /** The engine: its listing, and the lookup of each identifier it knows (any other is not found). */
  datatype Engine = Engine(listing: Listing, lookups: map<string, Lookup>)

  /** What building the client gives: an engine, or a `DockerException`. */
  datatype Connection = Connected(engine: Engine) | ConnectFailed

  /**
   * What a call of `stream_logs` gives its caller: a returned value (a log
   * source, or `None`), or one of the two exceptions the caller handles.
   */
  datatype StreamOutcome = Returned(stream: Option<seq<SourceStep>>) | RaisedNotFound | RaisedApiError(explanation: string, text: string)

  /** `pattern and pattern not in c.name` skips the container. */
  predicate Keeps(pattern: string, name: string) {
    pattern == [] || Contains(name, pattern)
  }

  /** The containers kept by the name filter, in listing order. */
  function Selected(pattern: string, cs: seq<ContainerRecord>): (r: seq<ContainerRecord>)
    ensures |r| <= |cs|
    ensures forall i :: 0 <= i < |r| ==> Keeps(pattern, r[i].name)
  {
    if cs == [] then []
    else
      var last := cs[|cs| - 1];
      Selected(pattern, cs[..|cs| - 1]) + (if Keeps(pattern, last.name) then [last] else [])
  }

  /** `tags[0] if tags else "unknown"`, and `str(c.attrs.get("Created", ""))`, once `c.image` has been found. */
  function Project(c: ContainerRecord): (info: ContainerInfo)
    requires c.image.ImageFound?
    ensures info.id == c.shortId && info.name == c.name && info.status == c.status
    ensures c.image.tags == [] ==> info.image == "unknown"
    ensures c.image.tags != [] ==> info.image == c.image.tags[0]
    ensures "Created" in c.attrs ==> info.created == c.attrs["Created"]
    ensures "Created" !in c.attrs ==> info.created == []
  {
    ContainerInfo(
      c.shortId, c.name, c.status,
      if c.image.tags != [] then c.image.tags[0] else "unknown",
      if "Created" in c.attrs then c.attrs["Created"] else "")
  }

  predicate ImagesFound(cs: seq<ContainerRecord>) {
    forall i :: 0 <= i < |cs| ==> cs[i].image.ImageFound?
  }

  function ProjectAll(cs: seq<ContainerRecord>): (r: seq<ContainerInfo>)
    requires ImagesFound(cs)
    ensures |r| == |cs|
    ensures forall i :: 0 <= i < |cs| ==> r[i] == Project(cs[i])
  {
    seq(|cs|, i requires 0 <= i < |cs| => Project(cs[i]))
  }

  /** The position of the first container whose image lookup raises, or `|cs|` when none does. */
  function FirstImageFailure(cs: seq<ContainerRecord>): (k: nat)
    ensures k <= |cs|
    ensures forall j :: 0 <= j < k ==> cs[j].image.ImageFound?
    ensures k < |cs| ==> cs[k].image.ImageLookupRaised?
  {
    if cs == [] || cs[0].image.ImageLookupRaised? then 0
    else 1 + FirstImageFailure(cs[1..])
  }

  /** Containers whose images were all found do not move the first failure, only shift it. */
  lemma {:induction false} FirstImageFailureAfter(a: seq<ContainerRecord>, b: seq<ContainerRecord>)
    requires ImagesFound(a)
    ensures FirstImageFailure(a + b) == |a| + FirstImageFailure(b)
    decreases |a|
  {
    if a == [] {
      assert a + b == b;
    } else {
      assert (a + b)[0] == a[0] && a[0].image.ImageFound?;
      assert (a + b)[1..] == a[1..] + b;
      FirstImageFailureAfter(a[1..], b);
    }
  }

  /**
   * `list_containers` over a listing: the dictionaries of the kept
   * containers, unless looking up the image of one of them raises, in
   * which case the first such exception propagates.
   */
  function ListKept(kept: seq<ContainerRecord>): (r: ListOutcome)
    ensures r.ListRaised? <==> exists i :: 0 <= i < |kept| && kept[i].image.ImageLookupRaised?
    ensures r.ListReturned? ==> ImagesFound(kept) && r.infos == ProjectAll(kept)
  {
    var k := FirstImageFailure(kept);
    if k < |kept| then ListRaised(kept[k].image.message) else ListReturned(ProjectAll(kept))
  }

  /** A container is selected exactly when it is listed and the filter keeps its name. */
  lemma {:induction false} SelectedMembers(pattern: string, cs: seq<ContainerRecord>, c: ContainerRecord)
    ensures c in Selected(pattern, cs) <==> c in cs && Keeps(pattern, c.name)
  {
    if cs != [] {
      var init := cs[..|cs| - 1];
      SelectedMembers(pattern, init, c);
      assert cs == init + [cs[|cs| - 1]];
    }
  }

  /**
   * The filter keeps listing order: filtering a listing is filtering each
   * part of it and putting the parts back in the same order.
   */
  lemma {:induction false} SelectedConcat(pattern: string, a: seq<ContainerRecord>, b: seq<ContainerRecord>)
    ensures Selected(pattern, a + b) == Selected(pattern, a) + Selected(pattern, b)
    decreases |b|
  {
    if b == [] {
      assert a + b == a;
    } else {
      var init := b[..|b| - 1];
      SelectedConcat(pattern, a, init);
      assert (a + b)[..|a + b| - 1] == a + init;
      assert (a + b)[|a + b| - 1] == b[|b| - 1];
    }
  }

  /** An empty pattern keeps every container, in listing order. */
  lemma {:induction false} EmptyPatternKeepsAll(cs: seq<ContainerRecord>)
    ensures Selected("", cs) == cs
  {
    if cs != [] {
      EmptyPatternKeepsAll(cs[..|cs| - 1]);
    }
  }

  /** `stream_logs` as written: every failure of the lookup comes back as `None`. */
  function StreamLogsSpec(available: bool, client: Option<Engine>, containerId: string): Option<seq<SourceStep>> {
    if !available || client.None? then None
    else if containerId in client.value.lookups && client.value.lookups[containerId].LogsOpened? then
      Some(client.value.lookups[containerId].source)
    else None
  }

  /**
   * `stream_logs` with the two lookup failures propagated to the caller: an
   * identifier the engine does not know, or a lookup reporting `NotFound`,
   * raises `NotFound`; an `APIError` raises `APIError`.
   */
  function StreamLogsOutcome(available: bool, client: Option<Engine>, containerId: string): StreamOutcome {
    if !available || client.None? then Returned(None)
    else if containerId !in client.value.lookups then RaisedNotFound
    else match client.value.lookups[containerId]
      case LogsOpened(source) => Returned(Some(source))
      case LookupNotFound => RaisedNotFound
      case LookupApiError(e, t) => RaisedApiError(e, t)
  }

  /**
   * The two readings agree wherever the lookup succeeds, and `stream_logs` as
   * written answers `None` exactly where the propagating reading raises or
   * the service is down.
   */
  lemma StreamLogsReadings(available: bool, client: Option<Engine>, containerId: string)
    ensures StreamLogsSpec(available, client, containerId).Some? <==>
      StreamLogsOutcome(available, client, containerId).Returned? &&
      StreamLogsOutcome(available, client, containerId).stream.Some?
    ensures StreamLogsOutcome(available, client, containerId).Returned? ==>
      StreamLogsOutcome(available, client, containerId).stream == StreamLogsSpec(available, client, containerId)
  {
  }

  /**
   * A kept container whose image lookup raises, after kept containers whose
   * images were all found, makes the listing raise its exception.
   */
  lemma ImageFailurePropagates(pattern: string, cs: seq<ContainerRecord>, i: nat, kept: seq<ContainerRecord>)
    requires i < |cs| && Keeps(pattern, cs[i].name) && cs[i].image.ImageLookupRaised?
    requires kept == Selected(pattern, cs[..i]) && ImagesFound(kept)
    ensures ListKept(Selected(pattern, cs)) == ListRaised(cs[i].image.message)
  {
    var rest := Selected(pattern, cs[i + 1..]);
    SelectedThrough(pattern, cs, i);
    assert Selected(pattern, cs) == kept + ([cs[i]] + rest);
    FirstImageFailureAfter(kept, [cs[i]] + rest);
  }

  /** One more container of the listing: the selection grows by it exactly when the filter keeps it. */
  lemma SelectedStep(pattern: string, cs: seq<ContainerRecord>, i: nat)
    requires i < |cs|
    ensures Selected(pattern, cs[..i + 1]) ==
      Selected(pattern, cs[..i]) + (if Keeps(pattern, cs[i].name) then [cs[i]] else [])
  {
    assert cs[..i + 1][..i] == cs[..i];
  }

  /** Projecting one more container whose image was found appends its dictionary. */
  lemma ProjectAllSnoc(cs: seq<ContainerRecord>, c: ContainerRecord)
    requires ImagesFound(cs) && c.image.ImageFound?
    ensures ImagesFound(cs + [c]) && ProjectAll(cs + [c]) == ProjectAll(cs) + [Project(c)]
  {
  }

  /** A kept container sits between the selections of what comes before and after it. */
  lemma SelectedThrough(pattern: string, cs: seq<ContainerRecord>, i: nat)
    requires i < |cs| && Keeps(pattern, cs[i].name)
    ensures Selected(pattern, cs) == Selected(pattern, cs[..i]) + [cs[i]] + Selected(pattern, cs[i + 1..])
  {
    assert cs == cs[..i + 1] + cs[i + 1..];
    SelectedConcat(pattern, cs[..i + 1], cs[i + 1..]);
    assert cs[..i + 1][..i] == cs[..i];
  }

  /** The listing raises exactly when some kept container's image lookup raises. */
  lemma KeptImagesAgree(pattern: string, cs: seq<ContainerRecord>, result: ListOutcome)
    requires result == ListKept(Selected(pattern, cs))
    ensures result.ListRaised? <==> exists c :: c in cs && Keeps(pattern, c.name) && c.image.ImageLookupRaised?
  {
    var kept := Selected(pattern, cs);
    if exists c :: c in cs && Keeps(pattern, c.name) && c.image.ImageLookupRaised? {
      var c :| c in cs && Keeps(pattern, c.name) && c.image.ImageLookupRaised?;
      SelectedMembers(pattern, cs, c);
      var i :| 0 <= i < |kept| && kept[i] == c;
    }
    if result.ListRaised? {
      var i :| 0 <= i < |kept| && kept[i].image.ImageLookupRaised?;
      SelectedMembers(pattern, cs, kept[i]);
    }
  }

  /**
   * What a listing gives: the image lookup's exception exactly when a
   * container that passes the filter has an image that cannot be looked
   * up; otherwise one dictionary per kept container, in listing order, with
   * its name and image.
   */
  ghost predicate ListOutcomeFacts(pattern: string, cs: seq<ContainerRecord>, result: ListOutcome) {
    && (result.ListRaised? <==>
          exists c :: c in cs && Keeps(pattern, c.name) && c.image.ImageLookupRaised?)
    && (result.ListReturned? ==>
          var kept := Selected(pattern, cs);
          && |result.infos| == |kept|
          && forall i :: 0 <= i < |kept| ==>
               && kept[i].image.ImageFound?
               && result.infos[i].name == kept[i].name
               && Keeps(pattern, kept[i].name)
               && result.infos[i].image == (if kept[i].image.tags == [] then "unknown" else kept[i].image.tags[0]))
  }

  /** The listing of `cs` through the filter has the facts `ListOutcomeFacts` states. */
  lemma ListKeptFacts(pattern: string, cs: seq<ContainerRecord>, result: ListOutcome)
    requires result == ListKept(Selected(pattern, cs))
    ensures ListOutcomeFacts(pattern, cs, result)
  {
    KeptImagesAgree(pattern, cs, result);
  }

  class DockerService {
    const client: Option<Engine>
    const available: bool

    /** `__init__`: a `DockerException` while connecting leaves the service unavailable. */
    constructor(connection: Connection)
      ensures available == connection.Connected?
      ensures client == (if connection.Connected? then Some(connection.engine) else None)
    {
      match connection
      case Connected(engine) =>
        client := Some(engine);
        available := true;
      case ConnectFailed =>
        client := None;
        available := false;
    }

    /** What `list_containers(pattern)` gives, as a function of the engine. */
    function Listing(pattern: string): ListOutcome {
      if !available || client.None? then ListReturned([])
      else match client.value.listing
        case ListApiError => ListReturned([])
        case Listed(cs) => ListKept(Selected(pattern, cs))
    }

    /**
     * `list_containers`: nothing when the service is unavailable or listing
     * raises `APIError`; otherwise one dictionary per container whose name
     * contains the pattern (every container for an empty pattern), in
     * listing order, its image the first tag or `"unknown"` -- unless
     * looking up the image of a kept container raises, which propagates.
     */
    method ListContainers(pattern: string) returns (result: ListOutcome)
      ensures result == Listing(pattern)
      ensures !available ==> result == ListReturned([])
      ensures available && client.Some? && client.value.listing.Listed? ==>
        ListOutcomeFacts(pattern, client.value.listing.containers, result)
    {
      if !available || client.None? {
        return ListReturned([]);
      }
      if client.value.listing.ListApiError? {
        return ListReturned([]);
      }
      var containers := client.value.listing.containers;
      var infos := [];
      ghost var kept: seq<ContainerRecord> := [];
      var i := 0;
      while i < |containers|
        invariant 0 <= i <= |containers|
        invariant kept == Selected(pattern, containers[..i])
        invariant ImagesFound(kept)
        invariant infos == ProjectAll(kept)
      {
        var c := containers[i];
        SelectedStep(pattern, containers, i);
        if pattern != [] && !Contains(c.name, pattern) {
          i := i + 1;
          continue;
        }
        match c.image
        case ImageLookupRaised(message) =>
          ImageFailurePropagates(pattern, containers, i, kept);
          result := ListRaised(message);
          ListKeptFacts(pattern, containers, result);
          return;
        case ImageFound(_) =>
          var info := Project(c);
          ProjectAllSnoc(kept, c);
          infos := infos + [info];
          kept := kept + [c];
          i := i + 1;
      }
      assert containers[..i] == containers;
      result := ListReturned(infos);
      ListKeptFacts(pattern, containers, result);
    }

    /** `list_all_containers` is `list_containers("")`: every container, in listing order. */
    method ListAllContainers() returns (result: ListOutcome)
      ensures result == Listing("")
      ensures available && client.Some? && client.value.listing.Listed? ==>
        var cs := client.value.listing.containers;
        && (result.ListRaised? <==> exists i :: 0 <= i < |cs| && cs[i].image.ImageLookupRaised?)
        && (result.ListReturned? ==> ImagesFound(cs) && result.infos == ProjectAll(cs))
    {
      result := ListContainers("");
      if available && client.Some? && client.value.listing.Listed? {
        EmptyPatternKeepsAll(client.value.listing.containers);
      }
    }

    /**
     * `stream_logs`: the log source of the container, or `None` when the
     * service is unavailable, the container is not found or the engine
     * raises `APIError`. The engine's other exceptions are not modelled.
     */
    method StreamLogs(containerId: string) returns (r: Option<seq<SourceStep>>)
      ensures r == StreamLogsSpec(available, client, containerId)
      ensures r.Some? <==>
        available && client.Some? && containerId in client.value.lookups && client.value.lookups[containerId].LogsOpened?
    {
      if !available || client.None? {
        return None;
      }
      var lookup := if containerId in client.value.lookups then client.value.lookups[containerId] else LookupNotFound;
      match lookup
      case LogsOpened(source) => r := Some(source);
      case LookupNotFound => r := None;
      case LookupApiError(_, _) => r := None;
    }

    /**
     * `stream_logs` with the two lookup failures left to propagate, as the
     * router's `NotFound` and `APIError` handlers expect.
     */
    method StreamLogsRaising(containerId: string) returns (r: StreamOutcome)
      ensures r == StreamLogsOutcome(available, client, containerId)
      ensures r.RaisedNotFound? <==>
        available && client.Some? &&
        (containerId !in client.value.lookups || client.value.lookups[containerId].LookupNotFound?)
    {
      if !available || client.None? {
        return Returned(None);
      }
      var lookup := if containerId in client.value.lookups then client.value.lookups[containerId] else LookupNotFound;
      match lookup
      case LogsOpened(source) => r := Returned(Some(source));
      case LookupNotFound => r := RaisedNotFound;
      case LookupApiError(e, t) => r := RaisedApiError(e, t);
    }
  }
}
