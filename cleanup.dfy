/**
 * `clean_image` (dodo.py, lines 276-291): remove every container whose name
 * matches the full image name, then every image of that name except the one
 * created last.
 */
module Cleanup {
  import opened DockerEngine
  import Naming

  predicate SortedByCreated(s: seq<Image>)
  {
    forall i, j :: 0 <= i < j < |s| ==> s[i].created <= s[j].created
  }

  /** No two entries share an id. */
  predicate DistinctIds(s: seq<Image>)
  {
    forall i, j :: 0 <= i < j < |s| ==> s[i].id != s[j].id
  }

  /** Insert `x` before the first entry that was created no earlier than it. */
  function Insert(x: Image, s: seq<Image>): (r: seq<Image>)
    ensures |r| == |s| + 1
    ensures forall e :: e in r <==> e == x || e in s
  {
    if s == [] || x.created <= s[0].created then [x] + s
    else
      assert s == [s[0]] + s[1..];
      [s[0]] + Insert(x, s[1..])
  }

  /**
   * `sorted(images, key=lambda el: el["Created"])`: ascending by creation
   * time and stable, so entries created at the same time keep their order.
   */
  function SortByCreated(imgs: seq<Image>): (r: seq<Image>)
    ensures |r| == |imgs|
    ensures forall e :: e in r <==> e in imgs
  {
    if imgs == [] then []
    else
      assert imgs == [imgs[0]] + imgs[1..];
      Insert(imgs[0], SortByCreated(imgs[1..]))
  }

  lemma {:induction false} InsertPermutes(x: Image, s: seq<Image>)
    ensures multiset(Insert(x, s)) == multiset(s) + multiset{x}
  {
    if s != [] && x.created > s[0].created {
      InsertPermutes(x, s[1..]);
      assert s == [s[0]] + s[1..];
    }
  }

  /** The sort is a permutation of the listing. */
  lemma {:induction false} SortPermutes(imgs: seq<Image>)
    ensures multiset(SortByCreated(imgs)) == multiset(imgs)
  {
    if imgs != [] {
      SortPermutes(imgs[1..]);
      InsertPermutes(imgs[0], SortByCreated(imgs[1..]));
      assert imgs == [imgs[0]] + imgs[1..];
    }
  }

  lemma {:induction false} InsertSorted(x: Image, s: seq<Image>)
    requires SortedByCreated(s)
    ensures SortedByCreated(Insert(x, s))
  {
    if s == [] || x.created <= s[0].created {
      SortedCons(x, s);
    } else {
      var rest := s[1..];
      assert SortedByCreated(rest) by {
        forall i, j | 0 <= i < j < |rest| ensures rest[i].created <= rest[j].created {
          assert rest[i] == s[i + 1] && rest[j] == s[j + 1];
        }
      }
      InsertSorted(x, rest);
      var t := Insert(x, rest);
      if rest != [] && x.created > rest[0].created {
        assert t[0] == rest[0] && rest[0] == s[1];
      }
      SortedCons(s[0], t);
    }
  }

  /** An entry created no later than the head of a sorted sequence can go in front of it. */
  lemma SortedCons(a: Image, t: seq<Image>)
    requires SortedByCreated(t) && (t == [] || a.created <= t[0].created)
    ensures SortedByCreated([a] + t)
  {
    var r := [a] + t;
    forall i, j | 0 <= i < j < |r| ensures r[i].created <= r[j].created {
      assert r[j] == t[j - 1];
      if i == 0 {
        assert t[0].created <= t[j - 1].created;
      } else {
        assert r[i] == t[i - 1];
      }
    }
  }

  lemma {:induction false} SortIsSorted(imgs: seq<Image>)
    ensures SortedByCreated(SortByCreated(imgs))
  {
    if imgs != [] {
      SortIsSorted(imgs[1..]);
      InsertSorted(imgs[0], SortByCreated(imgs[1..]));
    }
  }

  /** Inserting into a sorted sequence changes its last entry only for an entry created later. */
  lemma {:induction false} InsertLast(x: Image, s: seq<Image>)
    requires s != [] && SortedByCreated(s)
    ensures var r := Insert(x, s);
      r[|r| - 1] == if x.created > s[|s| - 1].created then x else s[|s| - 1]
  {
    if x.created > s[0].created && |s| > 1 {
      InsertLast(x, s[1..]);
    }
  }

  /**
   * The index of the entry created last; among entries created at the same
   * latest time, the one listed last.
   */
  function LatestIndex(imgs: seq<Image>): (k: nat)
    requires imgs != []
    ensures k < |imgs|
    ensures forall j :: 0 <= j < |imgs| ==> imgs[j].created <= imgs[k].created
    ensures forall j :: k < j < |imgs| ==> imgs[j].created < imgs[k].created
  {
    if |imgs| == 1 then 0
    else
      var k := LatestIndex(imgs[1..]);
      assert forall j :: 1 <= j < |imgs| ==> imgs[j] == imgs[1..][j - 1];
      if imgs[0].created > imgs[1..][k].created then 0 else k + 1
  }

  /** The last entry after sorting is the latest entry of the listing. */
  lemma {:induction false} SortLastIsLatest(imgs: seq<Image>)
    requires imgs != []
    ensures var s := SortByCreated(imgs); s[|s| - 1] == imgs[LatestIndex(imgs)]
  {
    if |imgs| > 1 {
      var rest := imgs[1..];
      SortLastIsLatest(rest);
      SortIsSorted(rest);
      var t := SortByCreated(rest);
      InsertLast(imgs[0], t);
      var k := LatestIndex(rest);
      assert SortByCreated(imgs) == Insert(imgs[0], t);
      assert imgs[k + 1] == rest[k];
      if imgs[0].created > rest[k].created {
        assert LatestIndex(imgs) == 0;
      } else {
        assert LatestIndex(imgs) == k + 1;
      }
    } else {
      assert SortByCreated(imgs[1..]) == [];
    }
  }

  lemma {:induction false} InsertDistinct(x: Image, s: seq<Image>)
    requires DistinctIds(s) && forall e :: e in s ==> e.id != x.id
    ensures DistinctIds(Insert(x, s))
  {
    var r := Insert(x, s);
    if s == [] || x.created <= s[0].created {
      forall i, j | 0 <= i < j < |r| ensures r[i].id != r[j].id {
        if i == 0 {
          assert r[j] == s[j - 1] && r[j] in s;
        } else {
          assert r[i] == s[i - 1] && r[j] == s[j - 1];
        }
      }
    } else {
      InsertDistinct(x, s[1..]);
      var t := Insert(x, s[1..]);
      forall i, j | 0 <= i < j < |r| ensures r[i].id != r[j].id {
        if i == 0 {
          assert r[j] == t[j - 1] && r[j] in t;
          if r[j] != x {
            var k :| 0 <= k < |s[1..]| && s[1..][k] == r[j];
            assert s[k + 1] == r[j];
          }
        } else {
          assert r[i] == t[i - 1] && r[j] == t[j - 1];
        }
      }
    }
  }

  lemma {:induction false} SortDistinct(imgs: seq<Image>)
    requires DistinctIds(imgs)
    ensures DistinctIds(SortByCreated(imgs))
  {
    if imgs != [] {
      var rest := imgs[1..];
      assert DistinctIds(rest) by {
        forall i, j | 0 <= i < j < |rest| ensures rest[i].id != rest[j].id {
          assert rest[i] == imgs[i + 1] && rest[j] == imgs[j + 1];
        }
      }
      SortDistinct(rest);
      forall e | e in SortByCreated(rest) ensures e.id != imgs[0].id {
        var k :| 0 <= k < |rest| && rest[k] == e;
        assert imgs[k + 1] == e;
      }
      InsertDistinct(imgs[0], SortByCreated(rest));
    }
  }

  lemma {:induction false} NamedDistinct(imgs: seq<Image>, name: string)
    requires DistinctIds(imgs)
    ensures DistinctIds(ImagesNamed(imgs, name))
  {
    if imgs != [] {
      var rest := imgs[1..];
      assert DistinctIds(rest) by {
        forall i, j | 0 <= i < j < |rest| ensures rest[i].id != rest[j].id {
          assert rest[i] == imgs[i + 1] && rest[j] == imgs[j + 1];
        }
      }
      NamedDistinct(rest, name);
      if imgs[0].repository == name {
        var t := ImagesNamed(rest, name);
        var r := [imgs[0]] + t;
        forall i, j | 0 <= i < j < |r| ensures r[i].id != r[j].id {
          assert r[j] == t[j - 1] && r[j] in rest;
          if i == 0 {
            var k :| 0 <= k < |rest| && rest[k] == r[j];
            assert imgs[k + 1] == r[j];
          } else {
            assert r[i] == t[i - 1];
          }
        }
      }
    }
  }

  /**
   * `sorted(...)[:-1]`: every image of the name except the last after
   * sorting. From `n` images of the name it picks `max(n - 1, 0)`, all of
   * them images of that name.
   */
  function ImagesToRemove(imgs: seq<Image>, fullName: string): (r: seq<Image>)
    ensures var n := |ImagesNamed(imgs, fullName)|;
      |r| == if n == 0 then 0 else n - 1
    ensures forall e :: e in r ==> e in imgs && e.repository == fullName
  {
    var s := SortByCreated(ImagesNamed(imgs, fullName));
    if s == [] then [] else s[..|s| - 1]
  }

  function ContainerRemovalCalls(cs: seq<Container>): (r: seq<Call>)
    ensures |r| == |cs|
  {
    if cs == [] then []
    else ContainerRemovalCalls(cs[..|cs| - 1]) + [RemoveContainer(cs[|cs| - 1].id, false, true)]
  }

  function ContainerRemovedLines(cs: seq<Container>): (r: seq<string>)
    ensures |r| == |cs|
  {
    if cs == [] then []
    else ContainerRemovedLines(cs[..|cs| - 1]) + [cs[|cs| - 1].id + " container removed\n"]
  }

  function ImageRemovalCalls(imgs: seq<Image>): (r: seq<Call>)
    ensures |r| == |imgs|
  {
    if imgs == [] then []
    else ImageRemovalCalls(imgs[..|imgs| - 1]) + [RemoveImage(imgs[|imgs| - 1].id, true)]
  }

  function ImageRemovedLines(imgName: string, imgs: seq<Image>): (r: seq<string>)
    ensures |r| == |imgs|
  {
    if imgs == [] then []
    else ImageRemovedLines(imgName, imgs[..|imgs| - 1]) + [imgName + " - " + imgs[|imgs| - 1].id + " image removed\n"]
  }

  /** The store, the calls made, the lines printed, and whether `AttributeError` was raised. */
  datatype CleanResult = CleanResult(
    containers: seq<Container>,
    images: seq<Image>,
    calls: seq<Call>,
    printed: seq<string>,
    raisedAttributeError: bool)

  /**
   * What `clean_image` does to a store, with each container's id read by its
   * `Id` key. It never raises, prints one line per removal (the two listings
   * print nothing), keeps no matching container and adds nothing to the store.
   */
  function CleanImageModel(cs: seq<Container>, imgs: seq<Image>, imgName: string): (r: CleanResult)
    ensures !r.raisedAttributeError
    ensures |r.calls| == |r.printed| + 2
    ensures forall c :: c in r.containers ==> c in cs && !NameMatches(c, Naming.ConstructFullImageName(imgName))
    ensures forall i :: i in r.images ==> i in imgs
  {
    var full := Naming.ConstructFullImageName(imgName);
    var matching := ContainersMatching(cs, full);
    var doomed := ImagesToRemove(imgs, full);
    CleanResult(
      DropContainers(cs, ContainerIds(matching)),
      DropImages(imgs, ImageIds(doomed)),
      [ListContainers(full)] + ContainerRemovalCalls(matching) + [ListImages(full)] + ImageRemovalCalls(doomed),
      ContainerRemovedLines(matching) + ImageRemovedLines(imgName, doomed),
      false)
  }

  /**
   * `clean_image` as written: the listing returns dictionaries, and
   * `container.id` on a dictionary raises `AttributeError`, so the first
   * matching container aborts the clean-up before anything is removed.
   */
  function CleanImageAsWritten(cs: seq<Container>, imgs: seq<Image>, imgName: string): (r: CleanResult)
    ensures r.raisedAttributeError <==> ContainersMatching(cs, Naming.ConstructFullImageName(imgName)) != []
    ensures r.raisedAttributeError ==> r.containers == cs && r.images == imgs && r.printed == []
  {
    var full := Naming.ConstructFullImageName(imgName);
    if ContainersMatching(cs, full) != [] then CleanResult(cs, imgs, [ListContainers(full)], [], true)
    else CleanImageModel(cs, imgs, imgName)
  }

  /** As written, any matching container makes the clean-up raise with the store untouched. */
  lemma AsWrittenRaisesOnMatchingContainer(cs: seq<Container>, imgs: seq<Image>, imgName: string)
    requires exists c :: c in cs && NameMatches(c, Naming.ConstructFullImageName(imgName))
    ensures var r := CleanImageAsWritten(cs, imgs, imgName);
      r.raisedAttributeError && r.containers == cs && r.images == imgs && r.printed == []
  {
    var c :| c in cs && NameMatches(c, Naming.ConstructFullImageName(imgName));
    assert c in ContainersMatching(cs, Naming.ConstructFullImageName(imgName));
  }

  /** A store holding one container of the LaTeX tool image: as written nothing is removed. */
  lemma AsWrittenCounterexample()
    ensures var cs := [Container("f00d", "cv-toollatex")];
      CleanImageAsWritten(cs, [], "toollatex").raisedAttributeError &&
      CleanImageAsWritten(cs, [], "toollatex").containers == cs &&
      CleanImageModel(cs, [], "toollatex").containers == []
  {
    var c := Container("f00d", "cv-toollatex");
    var full := Naming.ConstructFullImageName("toollatex");
    assert full == c.name;
    assert c.name[0..0 + |full|] == full;
    assert Strings.OccursAt(c.name, full, 0);
    assert NameMatches(c, full);
    assert ContainersMatching([c], full) == [c];
    AsWrittenRaisesOnMatchingContainer([c], [], "toollatex");
  }

  /** What one more turn of the container loop adds to the removed ids, the calls and the lines. */
  lemma ContainerStep(cs: seq<Container>, i: nat)
    requires i < |cs|
    ensures ContainerIds(cs[..i + 1]) == ContainerIds(cs[..i]) + {cs[i].id}
    ensures ContainerRemovalCalls(cs[..i + 1]) == ContainerRemovalCalls(cs[..i]) + [RemoveContainer(cs[i].id, false, true)]
    ensures ContainerRemovedLines(cs[..i + 1]) == ContainerRemovedLines(cs[..i]) + [cs[i].id + " container removed\n"]
  {
    assert cs[..i + 1][..i] == cs[..i];
    assert cs[..i + 1] == cs[..i] + [cs[i]];
  }

  /** What one more turn of the image loop adds to the removed ids, the calls and the lines. */
  lemma ImageStep(imgName: string, imgs: seq<Image>, j: nat)
    requires j < |imgs|
    ensures ImageIds(imgs[..j + 1]) == ImageIds(imgs[..j]) + {imgs[j].id}
    ensures ImageRemovalCalls(imgs[..j + 1]) == ImageRemovalCalls(imgs[..j]) + [RemoveImage(imgs[j].id, true)]
    ensures ImageRemovedLines(imgName, imgs[..j + 1]) ==
      ImageRemovedLines(imgName, imgs[..j]) + [imgName + " - " + imgs[j].id + " image removed\n"]
  {
    assert imgs[..j + 1][..j] == imgs[..j];
    assert imgs[..j + 1] == imgs[..j] + [imgs[j]];
  }

  /** The container loop of `clean_image`: force-remove each listed container, in order. */
  method RemoveContainers(engine: Engine, containers: seq<Container>) returns (printed: seq<string>)
    modifies engine`containers, engine`calls
    ensures engine.containers == DropContainers(old(engine.containers), ContainerIds(containers))
    ensures engine.calls == old(engine.calls) + ContainerRemovalCalls(containers)
    ensures printed == ContainerRemovedLines(containers)
  {
    ghost var store0 := engine.containers;
    ghost var calls0 := engine.calls;
    NoIdsKeepsContainers(store0);
    assert ContainerIds(containers[..0]) == {};
    printed := [];
    var i := 0;
    while i < |containers|
      invariant 0 <= i <= |containers|
      invariant engine.containers == DropContainers(store0, ContainerIds(containers[..i]))
      invariant engine.calls == calls0 + ContainerRemovalCalls(containers[..i])
      invariant printed == ContainerRemovedLines(containers[..i])
    {
      var id := containers[i].id;
      ghost var done := ContainerIds(containers[..i]);
      ghost var made := ContainerRemovalCalls(containers[..i]);
      engine.RemoveContainerCall(id, false, true);
      printed := printed + [id + " container removed\n"];
      ContainerStep(containers, i);
      DropContainersTwice(store0, done, {id});
      AppendAssoc(calls0, made, [RemoveContainer(id, false, true)]);
      i := i + 1;
    }
    assert containers[..i] == containers;
  }

  /** The image loop of `clean_image`: force-remove each given image, in order. */
  method RemoveImages(engine: Engine, imgName: string, doomed: seq<Image>) returns (printed: seq<string>)
    modifies engine`images, engine`calls
    ensures engine.images == DropImages(old(engine.images), ImageIds(doomed))
    ensures engine.calls == old(engine.calls) + ImageRemovalCalls(doomed)
    ensures printed == ImageRemovedLines(imgName, doomed)
  {
    ghost var store0 := engine.images;
    ghost var calls0 := engine.calls;
    NoIdsKeepsImages(store0);
    assert ImageIds(doomed[..0]) == {};
    printed := [];
    var j := 0;
    while j < |doomed|
      invariant 0 <= j <= |doomed|
      invariant engine.images == DropImages(store0, ImageIds(doomed[..j]))
      invariant engine.calls == calls0 + ImageRemovalCalls(doomed[..j])
      invariant printed == ImageRemovedLines(imgName, doomed[..j])
    {
      var id := doomed[j].id;
      ghost var done := ImageIds(doomed[..j]);
      ghost var made := ImageRemovalCalls(doomed[..j]);
      engine.RemoveImageCall(id, true);
      printed := printed + [imgName + " - " + id + " image removed\n"];
      ImageStep(imgName, doomed, j);
      DropImagesTwice(store0, done, {id});
      AppendAssoc(calls0, made, [RemoveImage(id, true)]);
      j := j + 1;
    }
    assert doomed[..j] == doomed;
  }

  /** `clean_image` with the container id read as `container["Id"]`. */
  method CleanImage(engine: Engine, imgName: string) returns (printed: seq<string>)
    modifies engine
    ensures var r := CleanImageModel(old(engine.containers), old(engine.images), imgName);
      engine.containers == r.containers && engine.images == r.images &&
      engine.calls == old(engine.calls) + r.calls && printed == r.printed
  {
    ghost var r := CleanImageModel(engine.containers, engine.images, imgName);
    var fullImgName := Naming.ConstructFullImageName(imgName);
    var containers := engine.Containers(fullImgName);
    ghost var calls1 := engine.calls;
    var removedContainers := RemoveContainers(engine, containers);
    assert engine.containers == r.containers;
    ghost var calls2 := engine.calls;
    var images := engine.Images(fullImgName);
    var sorted := SortByCreated(images);
    var imagesExceptLast := if sorted == [] then [] else sorted[..|sorted| - 1];
    assert imagesExceptLast == ImagesToRemove(old(engine.images), fullImgName);
    ghost var calls3 := engine.calls;
    var removedImages := RemoveImages(engine, imgName, imagesExceptLast);
    printed := removedContainers + removedImages;
    assert engine.calls == old(engine.calls) + r.calls by {
      assert containers == ContainersMatching(old(engine.containers), fullImgName);
      ghost var a := [ListContainers(fullImgName)];
      ghost var b := ContainerRemovalCalls(containers);
      ghost var c := [ListImages(fullImgName)];
      ghost var d := ImageRemovalCalls(imagesExceptLast);
      assert r.calls == a + b + c + d;
      assert calls1 == old(engine.calls) + a;
      assert calls2 == calls1 + b;
      assert calls3 == calls2 + c;
      assert engine.calls == calls3 + d;
      AppendAssoc(old(engine.calls), a, b);
      AppendAssoc(old(engine.calls), a + b, c);
      AppendAssoc(old(engine.calls), a + b + c, d);
    }
  }

  /**
   * After the clean-up no container matching the name is left, and when ids
   * are unique every other container is still there.
   */
  lemma CleanRemovesMatchingContainers(cs: seq<Container>, imgs: seq<Image>, imgName: string)
    requires forall i, j :: 0 <= i < j < |cs| ==> cs[i].id != cs[j].id
    ensures var full := Naming.ConstructFullImageName(imgName);
      var r := CleanImageModel(cs, imgs, imgName);
      forall c :: c in cs ==> (c in r.containers <==> !NameMatches(c, full))
  {
    var full := Naming.ConstructFullImageName(imgName);
    var matching := ContainersMatching(cs, full);
    forall c | c in cs && !NameMatches(c, full) ensures c.id !in ContainerIds(matching) {
    }
  }

  /**
   * From `n` images of the name the clean-up removes `max(n - 1, 0)`; when ids
   * are unique the only image of the name left is the latest one, and images
   * of other names are untouched.
   */
  lemma CleanKeepsLatestImage(cs: seq<Container>, imgs: seq<Image>, imgName: string)
    requires DistinctIds(imgs)
    ensures var full := Naming.ConstructFullImageName(imgName);
      var m := ImagesNamed(imgs, full);
      var r := CleanImageModel(cs, imgs, imgName);
      |ImagesToRemove(imgs, full)| == (if m == [] then 0 else |m| - 1) &&
      (m == [] ==> r.images == imgs) &&
      (m != [] ==> forall i :: i in imgs && i.repository == full ==> (i in r.images <==> i == m[LatestIndex(m)])) &&
      (forall i :: i in imgs && i.repository != full ==> i in r.images)
  {
    var full := Naming.ConstructFullImageName(imgName);
    var m := ImagesNamed(imgs, full);
    OtherNamesNotRemoved(imgs, full);
    if m == [] {
      assert ImagesToRemove(imgs, full) == [];
      NoIdsKeepsImages(imgs);
    } else {
      OnlyLatestNotRemoved(imgs, full);
    }
  }

  lemma OtherNamesNotRemoved(imgs: seq<Image>, full: string)
    requires DistinctIds(imgs)
    ensures forall i :: i in imgs && i.repository != full ==> i.id !in ImageIds(ImagesToRemove(imgs, full))
  {
    var doomed := ImagesToRemove(imgs, full);
    forall i | i in imgs && i.repository != full ensures i.id !in ImageIds(doomed) {
      forall e | e in doomed ensures e.id != i.id {
        var p :| 0 <= p < |imgs| && imgs[p] == i;
        var q :| 0 <= q < |imgs| && imgs[q] == e;
        assert p != q;
      }
    }
  }

  lemma OnlyLatestNotRemoved(imgs: seq<Image>, full: string)
    requires DistinctIds(imgs) && ImagesNamed(imgs, full) != []
    ensures var m := ImagesNamed(imgs, full);
      forall i :: i in m ==> (i.id in ImageIds(ImagesToRemove(imgs, full)) <==> i != m[LatestIndex(m)])
  {
    var m := ImagesNamed(imgs, full);
    var s := SortByCreated(m);
    NamedDistinct(imgs, full);
    SortDistinct(m);
    SortLastIsLatest(m);
    assert ImagesToRemove(imgs, full) == s[..|s| - 1];
    AllButLastIds(s);
  }

  /** In a sequence without repeated ids, the ids of all but the last entry are those of the other entries. */
  lemma AllButLastIds(s: seq<Image>)
    requires s != [] && DistinctIds(s)
    ensures forall i :: i in s ==> (i.id in ImageIds(s[..|s| - 1]) <==> i != s[|s| - 1])
  {
    var n := |s|;
    var doomed := s[..n - 1];
    forall i | i in s ensures i.id in ImageIds(doomed) <==> i != s[n - 1] {
      var k :| 0 <= k < n && s[k] == i;
      if i != s[n - 1] {
        assert k < n - 1 && doomed[k] == i;
      } else {
        forall e | e in doomed ensures e.id != i.id {
          var k' :| 0 <= k' < n - 1 && doomed[k'] == e;
          assert s[k'] == e;
        }
      }
    }
  }

  lemma {:induction false} NoIdsKeepsContainers(cs: seq<Container>)
    ensures DropContainers(cs, {}) == cs
  {
    if cs != [] {
      NoIdsKeepsContainers(cs[1..]);
    }
  }

  lemma {:induction false} NoIdsKeepsImages(imgs: seq<Image>)
    ensures DropImages(imgs, {}) == imgs
  {
    if imgs != [] {
      NoIdsKeepsImages(imgs[1..]);
    }
  }
}
