/**
 The slide show: a list of files with a position in it, and three slots with the loading tasks of
 the current file and its neighbours.
 */
module SlideShow {
  import opened Division
  import opened Options

  // ---------- Positions ----------

  // The position a step away, or none at the end of a list that does not loop.
  function Neighbour(i: nat, n: nat, loop: bool, forward: bool): (r: Option<nat>)
    requires i < n
    ensures r.Some? ==> r.value < n
  {
    if forward then
      if i + 1 < n then Some(i + 1) else if loop then Some(0) else None
    else
      if i > 0 then Some(i - 1) else if loop then Some(n - 1) else None
  }

  // A step is undone by the step in the other direction.
  lemma StepBack(i: nat, n: nat, loop: bool, forward: bool)
    requires i < n && Neighbour(i, n, loop, forward).Some?
    ensures Neighbour(Neighbour(i, n, loop, forward).value, n, loop, !forward) == Some(i)
  {
  }

  // The position after a run of steps; a step that is not possible is not made.
  function Position(i: nat, n: nat, loop: bool, steps: seq<bool>): (j: nat)
    requires i < n
    ensures j < n
    decreases |steps|
  {
    if steps == [] then i
    else
      var r := Neighbour(i, n, loop, steps[0]);
      Position(if r.Some? then r.value else i, n, loop, steps[1..])
  }

  // The steps forward less the steps back.
  function Net(steps: seq<bool>): int {
    if steps == [] then 0 else (if steps[0] then 1 else -1) + Net(steps[1..])
  }

  // A looping list is a circle: only the net number of steps counts.
  lemma {:induction false} LoopIsCircle(i: nat, n: nat, steps: seq<bool>)
    requires i < n
    ensures Position(i, n, true, steps) == (i + Net(steps)) % n
    decreases |steps|
  {
    if steps != [] {
      var j := Neighbour(i, n, true, steps[0]).value;
      LoopIsCircle(j, n, steps[1..]);
      var rest := Net(steps[1..]);
      if steps[0] && i + 1 == n {
        SameRemainder(i + 1 + rest, n, -1);
      } else if !steps[0] && i == 0 {
        SameRemainder(rest - 1, n, 1);
      }
    }
  }

  // ---------- The list of files ----------

  class Files {
    var theFiles: seq<string>
    // The neighbours are -1 if there is none.
    var prev: int
    var current: nat
    var next: int
    var loop: bool

    ghost predicate Valid()
      reads this
    {
      && current < |theFiles|
      && prev == Index(Neighbour(current, |theFiles|, loop, false))
      && next == Index(Neighbour(current, |theFiles|, loop, true))
    }

    // The neighbours are not known before the first setLoop.
    constructor (files: seq<string>)
      ensures theFiles == files && current == 0 && !loop
    {
      theFiles, prev, current, next, loop := files, -1, 0, 1, false;
    }

    method GetPrev() returns (p: int)
      requires current < |theFiles|
      ensures p == Index(Neighbour(current, |theFiles|, loop, false))
    {
      p := current - 1;
      if p < 0 {
        if loop {
          p := |theFiles| - 1;
        } else {
          p := -1;
        }
      }
    }

    method GetNext() returns (n: int)
      requires current < |theFiles|
      ensures n == Index(Neighbour(current, |theFiles|, loop, true))
    {
      n := current + 1;
      if n >= |theFiles| {
        if loop {
          n := 0;
        } else {
          n := -1;
        }
      }
    }

    method SetLoop(loop: bool)
      requires current < |theFiles|
      modifies this
      ensures Valid() && this.loop == loop && theFiles == old(theFiles) && current == old(current)
    {
      this.loop := loop;
      prev := GetPrev();
      next := GetNext();
    }

    method Next() returns (moved: bool)
      requires Valid()
      modifies this
      ensures Valid() && loop == old(loop) && theFiles == old(theFiles)
      ensures var r := Neighbour(old(current), |theFiles|, loop, true);
              (moved <==> r.Some?) && current == if moved then r.value else old(current)
    {
      if current + 1 < |theFiles| {
        current := current + 1;
      } else if loop {
        current := 0;
      } else {
        return false;
      }
      next := GetNext();
      prev := GetPrev();
      return true;
    }

    method Previous() returns (moved: bool)
      requires Valid()
      modifies this
      ensures Valid() && loop == old(loop) && theFiles == old(theFiles)
      ensures var r := Neighbour(old(current), |theFiles|, loop, false);
              (moved <==> r.Some?) && current == if moved then r.value else old(current)
    {
      if current > 0 {
        current := current - 1;
      } else if loop {
        current := |theFiles| - 1;
      } else {
        return false;
      }
      next := GetNext();
      prev := GetPrev();
      return true;
    }

    method CurrentFilePath() returns (path: string)
      requires current < |theFiles|
      ensures path == theFiles[current]
    {
      path := theFiles[current];
    }

    method NextFilePath() returns (path: Option<string>)
      requires Valid()
      ensures path == PathOf(Neighbour(current, |theFiles|, loop, true), theFiles)
    {
      path := if next >= 0 then Some(theFiles[next]) else None;
    }

    method PrevFilePath() returns (path: Option<string>)
      requires Valid()
      ensures path == PathOf(Neighbour(current, |theFiles|, loop, false), theFiles)
    {
      path := if prev >= 0 then Some(theFiles[prev]) else None;
    }
  }

  function Index(r: Option<nat>): int {
    if r.Some? then r.value else -1
  }

  function PathOf(r: Option<nat>, files: seq<string>): Option<string>
    requires r.Some? ==> r.value < |files|
  {
    if r.Some? then Some(files[r.value]) else None
  }

  // ---------- The slots ----------

  datatype Status = Ready | Running | Done | Cancelled

  class LoadingTask {
    const path: string
    var status: Status

    constructor (path: string)
      ensures this.path == path && status == Ready
    {
      this.path, status := path, Ready;
    }
  }

  const CURRENT := 0
  const NEXT := 1
  const PREV := 2

  class Show {
    const files: Files
    const image: array<LoadingTask?>
    const savePrevious: bool

    // The slots hold different tasks: that of the current file, and of its neighbours or none.
    ghost predicate Valid()
      reads this, files, image
    {
      && files.Valid()
      && image.Length == 3
      && image[CURRENT] != null && image[CURRENT].path == files.theFiles[files.current]
      && Matches(image[NEXT], Neighbour(files.current, |files.theFiles|, files.loop, true))
      && Matches(image[PREV], Neighbour(files.current, |files.theFiles|, files.loop, false))
      && image[CURRENT] != image[NEXT] && image[CURRENT] != image[PREV]
      && (image[NEXT] != null ==> image[NEXT] != image[PREV])
    }

    ghost predicate Matches(task: LoadingTask?, r: Option<nat>)
      reads files
    {
      task != null ==> r.Some? && r.value < |files.theFiles| && task.path == files.theFiles[r.value]
    }

    // No task in a slot has been cancelled.
    ghost predicate Alive()
      reads this, image, set t <- image[..] | t != null
      requires image.Length == 3
    {
      forall i :: 0 <= i < 3 && image[i] != null ==> image[i].status != Cancelled
    }

    // The first file is being loaded, and the one behind it if there is one.
    constructor (paths: seq<string>, loop: bool, savePrevious: bool)
      requires |paths| > 0
      ensures Valid() && Alive() && fresh(files) && fresh(image)
      ensures files.theFiles == paths && files.loop == loop && files.current == 0 && this.savePrevious == savePrevious
      ensures image[PREV] == null && fresh(image[CURRENT]) && (image[NEXT] == null <==> |paths| == 1 && !loop)
      ensures image[NEXT] != null ==> fresh(image[NEXT])
    {
      files := new Files(paths);
      image := new LoadingTask?[3](_ => null);
      this.savePrevious := savePrevious;
      new;
      files.SetLoop(loop);
      var path := files.CurrentFilePath();
      image[CURRENT] := new LoadingTask(path);
      var nf := files.NextFilePath();
      if nf != None {
        image[NEXT] := new LoadingTask(nf.value);
      }
    }

    // A step through the list. Tasks are started, and may be cancelled while they run; the rest of
    // their life is up to the executor.
    method NextImage(forward: bool) returns (moved: bool)
      requires Valid()
      modifies files, image, set t <- image[..] | t != null
      ensures Valid() && files.theFiles == old(files.theFiles) && files.loop == old(files.loop)
      ensures var r := Neighbour(old(files.current), |files.theFiles|, files.loop, forward);
              (moved <==> r.Some?) && files.current == if moved then r.value else old(files.current)
      ensures !moved ==> image[..] == old(image[..])
      ensures old(Alive()) ==> Alive()
      // The file ahead is prefetched, and the one left behind is kept if it is to be.
      ensures moved ==>
                var ahead, behind := if forward then NEXT else PREV, if forward then PREV else NEXT;
                && (image[ahead] != null <==> Neighbour(files.current, |files.theFiles|, files.loop, forward).Some?)
                && (image[ahead] != null ==> fresh(image[ahead]) && image[ahead].status == Ready)
                && image[behind] == (if savePrevious then old(image[CURRENT]) else null)
                && (old(image[ahead]) != null ==> image[CURRENT] == old(image[ahead]))
                && (old(image[ahead]) == null ==> fresh(image[CURRENT]) && image[CURRENT].status == Ready)
    {
      var nextImage, prevImage, nextPath;
      if forward {
        var more := files.Next();
        if !more { return false; }
        nextImage, prevImage := NEXT, PREV;
        nextPath := files.NextFilePath();
      } else {
        var more := files.Previous();
        if !more { return false; }
        nextImage, prevImage := PREV, NEXT;
        nextPath := files.PrevFilePath();
      }
      StepBack(old(files.current), |files.theFiles|, files.loop, forward);
      var path := files.CurrentFilePath();
      Shift(nextImage, prevImage, path, nextPath);
      return true;
    }

    // The slots move by one: the one behind is dropped, and the one ahead is filled again.
    method Shift(nextImage: nat, prevImage: nat, path: string, nextPath: Option<string>)
      requires image.Length == 3 && image[CURRENT] != null
      requires (nextImage == NEXT && prevImage == PREV) || (nextImage == PREV && prevImage == NEXT)
      requires image[CURRENT] != image[NEXT] && image[CURRENT] != image[PREV]
      requires image[NEXT] != null ==> image[NEXT] != image[PREV]
      modifies image, set t <- image[..] | t != null
      ensures image[nextImage] != null <==> nextPath.Some?
      ensures image[nextImage] != null ==>
                fresh(image[nextImage]) && image[nextImage].status == Ready && image[nextImage].path == nextPath.value
      ensures image[prevImage] == if savePrevious then old(image[CURRENT]) else null
      ensures image[CURRENT] != null
      ensures old(image[nextImage]) != null ==>
                image[CURRENT] == old(image[nextImage]) && image[CURRENT].status == old(image[nextImage].status)
      ensures old(image[nextImage]) == null ==>
                fresh(image[CURRENT]) && image[CURRENT].status == Ready && image[CURRENT].path == path
      ensures image[CURRENT] != image[nextImage]
      ensures savePrevious ==> image[prevImage].status == old(image[CURRENT].status)
    {
      if image[prevImage] != null {
        Cancel(image[prevImage]);
        image[prevImage] := null;
      }
      if savePrevious {
        image[prevImage] := image[CURRENT];
      } else {
        Cancel(image[CURRENT]);
      }
      image[CURRENT] := image[nextImage];
      image[nextImage] := null;
      if image[CURRENT] == null {
        image[CURRENT] := new LoadingTask(path);
      }
      if nextPath != None {
        image[nextImage] := new LoadingTask(nextPath.value);
      }
    }

    // A task that runs is cancelled.
    method Cancel(task: LoadingTask)
      modifies task`status
      ensures task.status == if old(task.status) == Running then Cancelled else old(task.status)
    {
      if task.status == Running {
        task.status := Cancelled;
      }
    }

    // Reloading a file that is still being loaded cancels the loading, and leaves it in its slot.
    method Reload()
      requires Valid()
      modifies image[CURRENT]
      ensures Valid()
      ensures old(Alive()) ==> (Alive() <==> old(image[CURRENT].status) != Running)
    {
      Cancel(image[CURRENT]);
    }
  }
}
