/** The Docker daemon as far as the instance lifecycle depends on it: which containers exist, whether
    they run and from which image, and which images exist. */
module Docker {
  datatype Container = Container(image: string, running: bool)

  datatype World = World(containers: map<string, Container>, images: set<string>)

  /** The answers that the callers tell apart; all but Done are errors. `Lost` is any other error:
      the daemon did not answer, or not in time. */
  datatype Answer = Done | NotFound | NotRunning | StillRunning | ImageInUse(running: bool) | Lost

  /** Whether a request is answered. If not, it may have been carried out all the same. */
  datatype Fault = Answered | Unanswered(effect: bool)

  function Faulty(w: World, w': World, answer: Answer, f: Fault): (World, Answer) {
    match f
    case Answered => (w', answer)
    case Unanswered(effect) => (if effect then w' else w, Lost)
  }

  function SetRunning(w: World, id: string, running: bool): World
    requires id in w.containers
  {
    w.(containers := w.containers[id := w.containers[id].(running := running)])
  }

  function ContainerCreate(w: World, id: string, image: string, f: Fault): (World, Answer) {
    if image !in w.images then Faulty(w, w, NotFound, f)
    else Faulty(w, w.(containers := w.containers[id := Container(image, false)]), Done, f)
  }

  function ContainerStart(w: World, id: string, f: Fault): (World, Answer) {
    if id !in w.containers then Faulty(w, w, NotFound, f) else Faulty(w, SetRunning(w, id, true), Done, f)
  }

  function ContainerStop(w: World, id: string, f: Fault): (World, Answer) {
    if id !in w.containers then Faulty(w, w, NotFound, f) else Faulty(w, SetRunning(w, id, false), Done, f)
  }

  function ContainerKill(w: World, id: string, f: Fault): (World, Answer) {
    if id !in w.containers then Faulty(w, w, NotFound, f)
    else if !w.containers[id].running then Faulty(w, w, NotRunning, f)
    else Faulty(w, SetRunning(w, id, false), Done, f)
  }

  /** Without force, a running container is not removed. */
  function ContainerRemove(w: World, id: string, f: Fault): (World, Answer) {
    if id !in w.containers then Faulty(w, w, NotFound, f)
    else if w.containers[id].running then Faulty(w, w, StillRunning, f)
    else Faulty(w, w.(containers := w.containers - {id}), Done, f)
  }

  /** Some container, running if `running` is asked for, was made from the image. */
  predicate Uses(w: World, image: string, running: bool) {
    exists id :: id in w.containers && w.containers[id].image == image && (running ==> w.containers[id].running)
  }

  /** Without force, an image that a container was made from is not removed. */
  function ImageRemove(w: World, image: string, f: Fault): (World, Answer) {
    if image !in w.images then Faulty(w, w, NotFound, f)
    else if Uses(w, image, false) then Faulty(w, w, ImageInUse(Uses(w, image, true)), f)
    else Faulty(w, w.(images := w.images - {image}), Done, f)
  }

  /** Tagging or building makes the image available under `image`. */
  function ImageMake(w: World, image: string, f: Fault): (World, Answer) {
    Faulty(w, w.(images := w.images + {image}), Done, f)
  }
}
