/** What one processing run is meant to leave behind, stated without the code's bookkeeping. */
module Outcome {
  import opened Options
  import opened VariantTable
  import opened ImageRepo

  /** A generator's verdict; a run may also be cut short by a panic inside one, or inside the
      statement that acts on its verdict. */
  datatype Gen = GenErr | GenSkip | GenMade(a: Artifact) | GenPanic
  datatype Prep = PrepOk | PrepErr | PrepPanic

  /** How a run goes.  A panic may come at any point: `claim` is where the claims panic (0, 1, 2 for
      thumbnail, WebP, AVIF), `fetch` panics for everything from the registration to the file, and
      `save` is where the end of the run does: 0, 1 and 2 before thumbnail, WebP and AVIF are stored,
      3 before the image's status is written, more in the cache deletion after it.  `giveUp` is the
      same for a run without a slot, with the three rows failed instead of stored. */
  datatype Env = Env(claim: Option<nat>, giveUp: Option<nat>, fetch: Prep, thumb: Gen, load: Prep, webp: Gen,
                     avif: Gen, save: Option<nat>)

  /** Which variants the task was asked for. */
  datatype Wanted = Wanted(thumb: bool, webp: bool, avif: bool)

  datatype Format = Thumb | WebP | AVIF

  function GenOf(env: Env, f: Format): Gen {
    match f case Thumb => env.thumb case WebP => env.webp case AVIF => env.avif
  }

  predicate Wants(w: Wanted, f: Format) {
    match f case Thumb => w.thumb case WebP => w.webp case AVIF => w.avif
  }

  predicate NeedsLoad(w: Wanted) { w.webp || w.avif }

  /** The generator of `f` is started: nothing before it failed to fetch or panicked. */
  predicate Started(env: Env, w: Wanted, f: Format) {
    match f
    case Thumb => w.thumb && env.fetch == PrepOk
    case WebP => w.webp && env.fetch == PrepOk && !(w.thumb && env.thumb == GenPanic) && env.load != PrepPanic
    case AVIF => w.avif && env.fetch == PrepOk && !(w.thumb && env.thumb == GenPanic) && env.load != PrepPanic
                 && !(w.webp && env.webp == GenPanic)
  }

  predicate Panics(env: Env, w: Wanted) {
    || env.fetch == PrepPanic
    || (Started(env, w, Thumb) && env.thumb == GenPanic)
    || (env.fetch == PrepOk && !(w.thumb && env.thumb == GenPanic) && NeedsLoad(w) && env.load == PrepPanic)
    || (Started(env, w, WebP) && env.webp == GenPanic)
    || (Started(env, w, AVIF) && env.avif == GenPanic)
  }

  /** What becomes of a row. */
  datatype Fate = Absent | Held | Back | Broken | Skipped | Done(a: Artifact)

  function FateOf(t: Table, id: nat): Fate {
    if id !in t then Absent
    else if t[id].deleted then Skipped
    else match t[id].status
      case Pending => Back
      case Processing => Held
      case Failed => Broken
      case Completed => Done(t[id].artifact)
  }

  predicate LoadBroke(env: Env, f: Format) {
    f != Thumb && env.load == PrepErr
  }

  /** Something failed before the results are stored. */
  predicate Breaks(env: Env, w: Wanted) {
    || Panics(env, w) || env.fetch == PrepErr
    || (NeedsLoad(w) && env.load == PrepErr)
    || (w.thumb && env.thumb == GenErr)
    || (w.webp && env.webp == GenErr)
    || (w.avif && !w.webp && env.avif == GenErr)
  }

  function Place(f: Format): nat {
    match f case Thumb => 0 case WebP => 1 case AVIF => 2
  }

  /** The run panics while results are being stored; nothing is stored unless something was made. */
  predicate SaveCut(env: Env, w: Wanted) {
    && env.fetch == PrepOk && !Panics(env, w) && env.save.Some? && env.save.value < 3
    && ((w.thumb && env.thumb.GenMade?) || (w.webp && env.webp.GenMade?) || (w.avif && env.avif.GenMade?))
  }

  /** It panics before the result of `f` is stored. */
  predicate Lost(env: Env, w: Wanted, f: Format) { SaveCut(env, w) && env.save.value <= Place(f) }

  /** It panics after everything was stored. */
  predicate EndCut(env: Env, w: Wanted) {
    !Breaks(env, w) && env.save.Some? && env.save.value >= 3
  }

  predicate CutShort(env: Env, w: Wanted) { Panics(env, w) || SaveCut(env, w) || EndCut(env, w) }

  /** The fate a requested, claimed row is meant to have when the run is over: skipped by its
      own generator, completed with exactly what it made, and failed in every other case. */
  function FinalFate(env: Env, w: Wanted, f: Format): Fate {
    if Started(env, w, f) && GenOf(env, f) == GenSkip then Skipped
    else if Started(env, w, f) && GenOf(env, f).GenMade?
            && !Panics(env, w) && !LoadBroke(env, f) && !Lost(env, w, f) then
      Done(GenOf(env, f).a)
    else Broken
  }

  /** The image is to be marked failed. */
  predicate ImageBreaks(env: Env, w: Wanted) { Breaks(env, w) || CutShort(env, w) }

  function Verdict(env: Env, w: Wanted): ImageStatus {
    if ImageBreaks(env, w) then ImgFailed
    else if (w.webp && FinalFate(env, w, WebP).Done?) || (w.avif && FinalFate(env, w, AVIF).Done?) then ImgCompleted
    else if w.thumb && FinalFate(env, w, Thumb).Done? then ImgThumbnailCompleted
    else ImgNone
  }

  /** The code's classification of a run that reported no failure. */
  function ResolveImageVariantStatus(hasThumb: bool, hasWebP: bool, hasAVIF: bool,
                                     thumbCompleted: bool, webpCompleted: bool, avifCompleted: bool,
                                     thumbSkipped: bool, webpSkipped: bool, avifSkipped: bool): ImageStatus {
    var fullCompleted := webpCompleted || avifCompleted;
    var allSkipped := (!hasThumb || thumbSkipped) && (!hasWebP || webpSkipped) && (!hasAVIF || avifSkipped);
    if thumbCompleted && fullCompleted then ImgCompleted
    else if thumbCompleted then ImgThumbnailCompleted
    else if fullCompleted then ImgCompleted
    else if allSkipped then ImgNone
    else ImgNone
  }
}
