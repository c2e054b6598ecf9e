/**
 * A fake container engine: the store of containers and images that the
 * script's engine client talks to, and a log of every call it receives.
 * The fault a call runs into (create, start, logs or wait failing, the wait
 * status) is chosen by the caller. Removals always succeed here: removing an
 * id that is not in the store does nothing.
 */
module DockerEngine {
  import opened Wrappers
  import Strings
  import LinePrinter

  type Id = string

  datatype Container = Container(id: Id, name: string)

  datatype Image = Image(id: Id, repository: string, created: int)

  /** The command of a container: an argument list or a shell string. */
  datatype Command = Argv(args: seq<string>) | Shell(line: string)

  /** A host configuration: its keys, with the text of their values. */
  type HostConfig = map<string, string>

  /** The engine calls the script makes, with the arguments it passes. */
  datatype Call =
    | ListContainers(nameFilter: string)
    | ListImages(name: string)
    | RemoveContainer(id: Id, v: bool, force: bool)
    | RemoveImage(id: Id, force: bool)
    | CreateContainer(image: string, command: Command, user: Option<int>, tty: bool,
                      stdinOpen: bool, volumes: Option<seq<string>>, hostConfig: HostConfig)
    | Start(id: Id)
    | Logs(id: Id, stream: bool, follow: bool, stdout: bool, stderr: bool)
    | Wait(id: Id)

  /** The `name` filter of the container listing: the filter text occurs in the name. */
  predicate NameMatches(c: Container, nameFilter: string)
  {
    Strings.Occurs(c.name, nameFilter)
  }

  /** The containers a listing with a `name` filter returns, in store order. */
  function ContainersMatching(cs: seq<Container>, nameFilter: string): (r: seq<Container>)
    ensures forall c :: c in r <==> c in cs && NameMatches(c, nameFilter)
  {
    if cs == [] then []
    else if NameMatches(cs[0], nameFilter) then [cs[0]] + ContainersMatching(cs[1..], nameFilter)
    else ContainersMatching(cs[1..], nameFilter)
  }

  /** The images a listing by repository name returns, in store order. */
  function ImagesNamed(imgs: seq<Image>, name: string): (r: seq<Image>)
    ensures forall i :: i in r <==> i in imgs && i.repository == name
    ensures |r| <= |imgs|
  {
    if imgs == [] then []
    else if imgs[0].repository == name then [imgs[0]] + ImagesNamed(imgs[1..], name)
    else ImagesNamed(imgs[1..], name)
  }

  function ContainerIds(cs: seq<Container>): set<Id>
  {
    set c | c in cs :: c.id
  }

  function ImageIds(imgs: seq<Image>): set<Id>
  {
    set i | i in imgs :: i.id
  }

  /** The store after the containers with the given ids are removed. */
  function DropContainers(cs: seq<Container>, ids: set<Id>): (r: seq<Container>)
    ensures forall c :: c in r <==> c in cs && c.id !in ids
  {
    if cs == [] then []
    else if cs[0].id in ids then DropContainers(cs[1..], ids)
    else [cs[0]] + DropContainers(cs[1..], ids)
  }

  /** The store after the images with the given ids are removed. */
  function DropImages(imgs: seq<Image>, ids: set<Id>): (r: seq<Image>)
    ensures forall i :: i in r <==> i in imgs && i.id !in ids
  {
    if imgs == [] then []
    else if imgs[0].id in ids then DropImages(imgs[1..], ids)
    else [imgs[0]] + DropImages(imgs[1..], ids)
  }

  lemma {:induction false} DropContainersTwice(cs: seq<Container>, a: set<Id>, b: set<Id>)
    ensures DropContainers(DropContainers(cs, a), b) == DropContainers(cs, a + b)
  {
    if cs != [] {
      DropContainersTwice(cs[1..], a, b);
    }
  }

  lemma {:induction false} DropImagesTwice(imgs: seq<Image>, a: set<Id>, b: set<Id>)
    ensures DropImages(DropImages(imgs, a), b) == DropImages(imgs, a + b)
  {
    if imgs != [] {
      DropImagesTwice(imgs[1..], a, b);
    }
  }

  /** Removing a container that was added last, and whose id nobody else has, restores the store. */
  lemma {:induction false} DropAppended(cs: seq<Container>, c: Container)
    requires forall d :: d in cs ==> d.id != c.id
    ensures DropContainers(cs + [c], {c.id}) == cs
  {
    if cs == [] {
      assert [] + [c] == [c];
    } else {
      assert (cs + [c])[1..] == cs[1..] + [c];
      DropAppended(cs[1..], c);
      assert cs == [cs[0]] + cs[1..];
    }
  }

  /** Appending to a call log in several steps is appending the steps joined. */
  lemma AppendAssoc<T>(x: seq<T>, y: seq<T>, z: seq<T>)
    ensures x + (y + z) == x + y + z
  {
  }

  function MaxIdLength(cs: seq<Container>): (n: nat)
    ensures forall c :: c in cs ==> |c.id| <= n
  {
    if cs == [] then 0
    else
      var rest := MaxIdLength(cs[1..]);
      assert forall c :: c in cs ==> c == cs[0] || c in cs[1..];
      if |cs[0].id| > rest then |cs[0].id| else rest
  }

  /** The id the engine gives a new container: longer than every id in the store. */
  function FreshId(cs: seq<Container>): (id: Id)
    ensures forall c :: c in cs ==> c.id != id
  {
    seq(MaxIdLength(cs) + 1, _ => 'c')
  }

  class Engine {
    var containers: seq<Container>
    var images: seq<Image>
    /** Every call the engine received, oldest first. */
    var calls: seq<Call>

    constructor (containers0: seq<Container>, images0: seq<Image>)
      ensures containers == containers0 && images == images0 && calls == []
    {
      containers := containers0;
      images := images0;
      calls := [];
    }

    /** `containers(all=True, filters={"name": nameFilter})`. */
    method Containers(nameFilter: string) returns (listed: seq<Container>)
      modifies this`calls
      ensures listed == ContainersMatching(containers, nameFilter)
      ensures calls == old(calls) + [ListContainers(nameFilter)]
    {
      listed := ContainersMatching(containers, nameFilter);
      calls := calls + [ListContainers(nameFilter)];
    }

    /** `images(name=name, all=True)`. */
    method Images(name: string) returns (listed: seq<Image>)
      modifies this`calls
      ensures listed == ImagesNamed(images, name)
      ensures calls == old(calls) + [ListImages(name)]
    {
      listed := ImagesNamed(images, name);
      calls := calls + [ListImages(name)];
    }

    /** `remove_container(id, v=v, force=force)`. */
    method RemoveContainerCall(id: Id, v: bool, force: bool)
      modifies this`containers, this`calls
      ensures containers == DropContainers(old(containers), {id})
      ensures calls == old(calls) + [RemoveContainer(id, v, force)]
    {
      containers := DropContainers(containers, {id});
      calls := calls + [RemoveContainer(id, v, force)];
    }

    /** `remove_image(id, force=force)`. */
    method RemoveImageCall(id: Id, force: bool)
      modifies this`images, this`calls
      ensures images == DropImages(old(images), {id})
      ensures calls == old(calls) + [RemoveImage(id, force)]
    {
      images := DropImages(images, {id});
      calls := calls + [RemoveImage(id, force)];
    }

    /** `create_container(...)`: a new container with a fresh id, unless the daemon refuses. */
    method CreateContainerCall(image: string, command: Command, user: Option<int>, tty: bool,
                               stdinOpen: bool, volumes: Option<seq<string>>, hostConfig: HostConfig,
                               fails: bool)
      returns (id: Option<Id>)
      modifies this`containers, this`calls
      ensures fails ==> id.None? && containers == old(containers)
      ensures !fails ==> id == Some(FreshId(old(containers))) &&
                         containers == old(containers) + [Container(id.value, id.value)]
      ensures calls == old(calls) + [CreateContainer(image, command, user, tty, stdinOpen, volumes, hostConfig)]
    {
      calls := calls + [CreateContainer(image, command, user, tty, stdinOpen, volumes, hostConfig)];
      if fails {
        id := None;
      } else {
        var newId := FreshId(containers);
        containers := containers + [Container(newId, newId)];
        id := Some(newId);
      }
    }

    /** `start(id)`: false when the daemon raises. */
    method StartCall(id: Id, fails: bool) returns (ok: bool)
      modifies this`calls
      ensures ok == !fails
      ensures calls == old(calls) + [Start(id)]
    {
      calls := calls + [Start(id)];
      ok := !fails;
    }

    /** `logs(id, stream=True, follow=True, stdout=True, stderr=True)`: the container's output. */
    method LogsCall(id: Id, output: LinePrinter.Chunks) returns (generator: LinePrinter.Chunks)
      modifies this`calls
      ensures generator == output
      ensures calls == old(calls) + [Logs(id, true, true, true, true)]
    {
      calls := calls + [Logs(id, true, true, true, true)];
      generator := output;
    }

    /** `wait(id)`: the exit status, or `None` when the call raises. */
    method WaitCall(id: Id, status: Option<int>) returns (r: Option<int>)
      modifies this`calls
      ensures r == status
      ensures calls == old(calls) + [Wait(id)]
    {
      calls := calls + [Wait(id)];
      r := status;
    }
  }
}
