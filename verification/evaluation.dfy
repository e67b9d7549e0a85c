/**
 * The accuracy bookkeeping of runDNN: the list and label files are loaded,
 * the run stops early when any of them is empty, and then every image is
 * preprocessed, scored and ranked in file order, with sol_counter, top1 and
 * top5 updated once per image. The inference backend and the softmax are
 * outside the model: what they produce for an image is a parameter.
 */
module Evaluation {
  import opened Wrappers
  import opened Lines
  import opened Validation
  import opened Geometry
  import opened Ranking

  /** How many classes are ranked per image: the k that runDNN passes to TopK. */
  const K: nat := 5

  /** Each score vector has at least k entries, so k pops are defined. */
  predicate Rankable(outputs: seq<seq<int>>, k: nat) {
    forall i :: 0 <= i < |outputs| ==> k <= |outputs[i]|
  }

  /**
   * The counters after the images whose score vectors are `outputs`, the
   * i-th scored against solutions[i] with its first k pops: the loop of
   * runDNN as a left fold.
   */
  function Score(outputs: seq<seq<int>>, solutions: seq<int>, k: nat): (c: Counters)
    requires |outputs| <= |solutions| && Rankable(outputs, k)
    ensures c.solCounter == |outputs|
    ensures Consistent(c)
    decreases |outputs|
  {
    if |outputs| == 0 then Counters(0, 0, 0)
    else
      var n := |outputs| - 1;
      Tally(Score(outputs[..n], solutions, k), Pops(outputs[n], k), solutions[n])
  }

  /** Position of the first `x` in `s`, or |s| when it does not occur. */
  function Position(s: seq<int>, x: int): (p: nat)
    ensures p <= |s|
    ensures p < |s| ==> s[p] == x
    ensures forall a :: 0 <= a < p ==> s[a] != x
  {
    if |s| == 0 || s[0] == x then 0
    else 1 + Position(s[1..], x)
  }

  /** The 0-based rank of class j in the full pop order of `d`; |d| when j is not a class index. */
  function Rank(d: seq<int>, j: int): nat
  {
    Position(Pops(d, |d|), j)
  }

  /** Class j is among the first k pops iff its rank is below k; it is the first pop iff its rank is 0. */
  lemma InTopKIffRankBelow(d: seq<int>, j: int, k: nat)
    requires 0 < k <= |d|
    ensures j in Pops(d, k) <==> Rank(d, j) < k
    ensures Pops(d, k)[0] == j <==> Rank(d, j) == 0
  {
    var full := Pops(d, |d|);
    PopsPrefix(d, k, |d|);
    var p := Position(full, j);
    if j in Pops(d, k) {
      var a :| 0 <= a < k && Pops(d, k)[a] == j;
      assert full[a] == j;
    }
    if p < k {
      assert Pops(d, k)[p] == j;
    }
  }

  /** The outputs when every image's ground truth has rank below `bound`, and all of them at least `low`. */
  predicate RanksBetween(outputs: seq<seq<int>>, solutions: seq<int>, low: nat, bound: nat)
    requires |outputs| <= |solutions|
  {
    forall i :: 0 <= i < |outputs| ==> low <= Rank(outputs[i], solutions[i]) < bound
  }

  /** Ground truth always ranked first: top-1 and top-k both count every image. */
  lemma {:induction false} AlwaysRankedFirst(outputs: seq<seq<int>>, solutions: seq<int>, k: nat)
    requires 0 < k && |outputs| <= |solutions| && Rankable(outputs, k)
    requires RanksBetween(outputs, solutions, 0, 1)
    ensures Score(outputs, solutions, k) == Counters(|outputs|, |outputs|, |outputs|)
  {
    if |outputs| > 0 {
      var n := |outputs| - 1;
      assert RanksBetween(outputs[..n], solutions, 0, 1);
      AlwaysRankedFirst(outputs[..n], solutions, k);
      InTopKIffRankBelow(outputs[n], solutions[n], k);
    }
  }

  /** Ground truth always ranked fifth: top-1 counts nothing and top-5 every image. */
  lemma {:induction false} AlwaysRankedFifth(outputs: seq<seq<int>>, solutions: seq<int>)
    requires |outputs| <= |solutions| && Rankable(outputs, K)
    requires RanksBetween(outputs, solutions, 4, 5)
    ensures Score(outputs, solutions, K) == Counters(|outputs|, 0, |outputs|)
  {
    if |outputs| > 0 {
      var n := |outputs| - 1;
      assert RanksBetween(outputs[..n], solutions, 4, 5);
      AlwaysRankedFifth(outputs[..n], solutions);
      InTopKIffRankBelow(outputs[n], solutions[n], K);
    }
  }

  /** Ground truth always ranked sixth or lower: neither counter moves. */
  lemma {:induction false} NeverInTopFive(outputs: seq<seq<int>>, solutions: seq<int>, bound: nat)
    requires |outputs| <= |solutions| && Rankable(outputs, K)
    requires RanksBetween(outputs, solutions, 5, bound)
    ensures Score(outputs, solutions, K) == Counters(|outputs|, 0, 0)
  {
    if |outputs| > 0 {
      var n := |outputs| - 1;
      assert RanksBetween(outputs[..n], solutions, 5, bound);
      NeverInTopFive(outputs[..n], solutions, bound);
      InTopKIffRankBelow(outputs[n], solutions[n], K);
    }
  }

  /** Why a run ends without final accuracies. */
  datatype RunError =
    | NoImages                 // val.txt gave no image names: early return
    | NoSolutions              // val.txt gave no ids: early return
    | NoWords                  // words.txt gave no labels: early return
    | ImageRejected(image: nat)   // OpenCV rejects the image in preprocessing; the exception ends the process
    | Undefined(image: nat)       // a failed assert, an out-of-range vector index or a pop from an empty queue

  /**
   * Everything runDNN reads from outside: the text of val.txt and words.txt,
   * the size imread gives each image name (0 x 0 when it cannot read it),
   * the input tensor's width and height, and the scores the backend and the
   * softmax produce for an image.
   */
  datatype Env = Env(
    valText: string,
    wordsText: string,
    imageSize: string -> Size,
    tensorWidth: int,
    tensorHeight: int,
    scores: string -> seq<int>)

  /** The scores of the first n images. */
  function Outputs(env: Env, images: seq<string>, n: nat): (outputs: seq<seq<int>>)
    requires n <= |images|
    ensures |outputs| == n
    ensures forall i :: 0 <= i < n ==> outputs[i] == env.scores(images[i])
  {
    seq(n, i requires 0 <= i < n => env.scores(images[i]))
  }

  /**
   * Image i goes through one pass of the loop, ranking k classes, without
   * reaching anything the source leaves undefined: OpenCV accepts it, TopK's
   * assertion holds, it has a ground truth, its scores allow k pops, and the
   * popped indices and its ground truth all index words.txt.
   */
  predicate Completes(env: Env, images: seq<string>, solutions: seq<int>, labels: seq<string>, k: nat, i: nat)
    requires i < |images|
  {
    && Preprocess(env.imageSize(images[i]), env.tensorWidth, env.tensorHeight).Success?
    && i < |solutions|
    && 0 < k <= |env.scores(images[i])|
    && (forall a :: 0 <= a < k ==> Pops(env.scores(images[i]), k)[a] < |labels|)
    && 0 <= solutions[i] < |labels|
  }

  /**
   * One pass of the image loop for image i with counters c: preprocess, pop
   * k classes, and update the counters; every step the source leaves
   * undefined for this image is an Undefined failure.
   */
  function ProcessImage(env: Env, images: seq<string>, solutions: seq<int>, labels: seq<string>, k: nat, i: nat, c: Counters)
    : (r: Result<Counters, RunError>)
    requires i < |images|
    ensures r.Success? <==> Completes(env, images, solutions, labels, k, i)
    ensures r == Failure(ImageRejected(i)) <==>
              Preprocess(env.imageSize(images[i]), env.tensorWidth, env.tensorHeight).Failure?
    ensures r.Success? ==> r.value == Tally(c, Pops(env.scores(images[i]), k), solutions[i])
    ensures r.Failure? ==> r.error == ImageRejected(i) || r.error == Undefined(i)
  {
    var name := images[i];
    if Preprocess(env.imageSize(name), env.tensorWidth, env.tensorHeight).Failure? then
      Failure(ImageRejected(i))
    else
      var out := env.scores(name);
      if k == 0 || |out| < k || i >= |solutions| then Failure(Undefined(i))
      else
        var popped := Pops(out, k);
        var solution := solutions[i];
        if !(forall a :: 0 <= a < k ==> popped[a] < |labels|) || !(0 <= solution < |labels|) then
          Failure(Undefined(i))
        else
          Success(Tally(c, popped, solution))
  }

  /** The image loop over the first n images, stopping at the first failure. */
  function Stream(env: Env, images: seq<string>, solutions: seq<int>, labels: seq<string>, k: nat, n: nat)
    : (r: Result<Counters, RunError>)
    requires n <= |images|
    ensures r.Failure? ==> (r.error.ImageRejected? || r.error.Undefined?) && r.error.image < n
  {
    if n == 0 then Success(Counters(0, 0, 0))
    else
      match Stream(env, images, solutions, labels, k, n - 1)
      case Failure(e) => Failure(e)
      case Success(c) => ProcessImage(env, images, solutions, labels, k, n - 1, c)
  }

  /** A successful image loop leaves the counters of the fold over the images' scores. */
  lemma {:induction false} StreamScores(env: Env, images: seq<string>, solutions: seq<int>, labels: seq<string>, k: nat, n: nat)
    requires n <= |images|
    ensures var r := Stream(env, images, solutions, labels, k, n);
      r.Success? ==>
        && n <= |solutions| && Rankable(Outputs(env, images, n), k)
        && r.value == Score(Outputs(env, images, n), solutions, k)
    decreases n
  {
    if n > 0 {
      StreamStep(env, images, solutions, labels, k, n);
      var prev := Stream(env, images, solutions, labels, k, n - 1);
      if prev.Success? {
        StreamScores(env, images, solutions, labels, k, n - 1);
        var r := ProcessImage(env, images, solutions, labels, k, n - 1, prev.value);
        if r.Success? {
          ScoreSnoc(env, images, solutions, k, n);
        }
      }
    }
  }

  /** One more image: the loop stops where it stopped before, or runs one more pass. */
  lemma StreamStep(env: Env, images: seq<string>, solutions: seq<int>, labels: seq<string>, k: nat, n: nat)
    requires 0 < n <= |images|
    ensures var prev := Stream(env, images, solutions, labels, k, n - 1);
      Stream(env, images, solutions, labels, k, n) ==
        if prev.Failure? then prev else ProcessImage(env, images, solutions, labels, k, n - 1, prev.value)
  {
  }

  /** StreamStep with the pass of image n - 1 replaced by what ProcessImage promises about it. */
  lemma StreamStepFacts(env: Env, images: seq<string>, solutions: seq<int>, labels: seq<string>, k: nat, n: nat)
    requires 0 < n <= |images|
    ensures var prev, r := Stream(env, images, solutions, labels, k, n - 1), Stream(env, images, solutions, labels, k, n);
      && (prev.Failure? ==> r == prev)
      && (prev.Success? ==> (r.Success? <==> Completes(env, images, solutions, labels, k, n - 1)))
      && (prev.Success? && r.Failure? ==> r.error == ImageRejected(n - 1) || r.error == Undefined(n - 1))
      && (prev.Success? ==>
            (r == Failure(ImageRejected(n - 1)) <==>
               Preprocess(env.imageSize(images[n - 1]), env.tensorWidth, env.tensorHeight).Failure?))
  {
    StreamStep(env, images, solutions, labels, k, n);
  }

  /**
   * The image loop succeeds exactly when every image completes, and a
   * failed loop names the first image that does not complete.
   */
  lemma {:induction false} StreamOutcome(env: Env, images: seq<string>, solutions: seq<int>, labels: seq<string>, k: nat, n: nat)
    requires n <= |images|
    ensures var r := Stream(env, images, solutions, labels, k, n);
      && (r.Success? <==> forall i :: 0 <= i < n ==> Completes(env, images, solutions, labels, k, i))
      && (r.Failure? ==>
            && !Completes(env, images, solutions, labels, k, r.error.image)
            && forall i :: 0 <= i < r.error.image ==> Completes(env, images, solutions, labels, k, i))
  {
    if n > 0 {
      StreamOutcome(env, images, solutions, labels, k, n - 1);
      StreamStepFacts(env, images, solutions, labels, k, n);
      var prev := Stream(env, images, solutions, labels, k, n - 1);
      var r := Stream(env, images, solutions, labels, k, n);
      OutcomeStep(env, images, solutions, labels, k, n, prev, r);
    }
  }

  /** The step of StreamOutcome, on the two loop results alone. */
  lemma OutcomeStep(env: Env, images: seq<string>, solutions: seq<int>, labels: seq<string>, k: nat, n: nat,
                    prev: Result<Counters, RunError>, r: Result<Counters, RunError>)
    requires 0 < n <= |images|
    requires prev.Failure? ==> (prev.error.ImageRejected? || prev.error.Undefined?) && prev.error.image < n - 1
    requires && (prev.Success? <==> forall i :: 0 <= i < n - 1 ==> Completes(env, images, solutions, labels, k, i))
             && (prev.Failure? ==>
                   && !Completes(env, images, solutions, labels, k, prev.error.image)
                   && forall i :: 0 <= i < prev.error.image ==> Completes(env, images, solutions, labels, k, i))
    requires && (prev.Failure? ==> r == prev)
             && (prev.Success? ==> (r.Success? <==> Completes(env, images, solutions, labels, k, n - 1)))
             && (prev.Success? && r.Failure? ==> r.error == ImageRejected(n - 1) || r.error == Undefined(n - 1))
    ensures r.Success? <==> forall i :: 0 <= i < n ==> Completes(env, images, solutions, labels, k, i)
    ensures r.Failure? ==>
              && !Completes(env, images, solutions, labels, k, r.error.image)
              && forall i :: 0 <= i < r.error.image ==> Completes(env, images, solutions, labels, k, i)
  {
  }

  /** A failed image loop reports its image as rejected exactly when OpenCV rejects that image. */
  lemma {:induction false} StreamRejects(env: Env, images: seq<string>, solutions: seq<int>, labels: seq<string>, k: nat, n: nat)
    requires n <= |images|
    ensures var r := Stream(env, images, solutions, labels, k, n);
      r.Failure? ==>
        (r.error.ImageRejected? <==>
           Preprocess(env.imageSize(images[r.error.image]), env.tensorWidth, env.tensorHeight).Failure?)
    decreases n
  {
    if n > 0 {
      StreamStepFacts(env, images, solutions, labels, k, n);
      StreamRejects(env, images, solutions, labels, k, n - 1);
      var prev := Stream(env, images, solutions, labels, k, n - 1);
      var r := Stream(env, images, solutions, labels, k, n);
      RejectsStep(env, images, n, prev, r);
    }
  }

  /** The step of StreamRejects, on the two loop results alone. */
  lemma RejectsStep(env: Env, images: seq<string>, n: nat, prev: Result<Counters, RunError>, r: Result<Counters, RunError>)
    requires 0 < n <= |images|
    requires prev.Failure? ==>
               && r == prev && (prev.error.ImageRejected? || prev.error.Undefined?) && prev.error.image < n - 1
               && (prev.error.ImageRejected? <==>
                     Preprocess(env.imageSize(images[prev.error.image]), env.tensorWidth, env.tensorHeight).Failure?)
    requires prev.Success? ==>
               && (r.Failure? ==> r.error == ImageRejected(n - 1) || r.error == Undefined(n - 1))
               && (r == Failure(ImageRejected(n - 1)) <==>
                     Preprocess(env.imageSize(images[n - 1]), env.tensorWidth, env.tensorHeight).Failure?)
    ensures r.Failure? ==>
              && (r.error.ImageRejected? || r.error.Undefined?) && r.error.image < n
              && (r.error.ImageRejected? <==>
                    Preprocess(env.imageSize(images[r.error.image]), env.tensorWidth, env.tensorHeight).Failure?)
  {
  }

  /** Scoring one more image applies one more Tally to the counters of the images before it. */
  lemma {:induction false} ScoreSnoc(env: Env, images: seq<string>, solutions: seq<int>, k: nat, n: nat)
    requires 0 < n <= |images| && n <= |solutions|
    requires Rankable(Outputs(env, images, n - 1), k) && k <= |env.scores(images[n - 1])|
    ensures Rankable(Outputs(env, images, n), k)
    ensures Score(Outputs(env, images, n), solutions, k) ==
              Tally(Score(Outputs(env, images, n - 1), solutions, k), Pops(env.scores(images[n - 1]), k), solutions[n - 1])
  {
    OutputsSnoc(env, images, n);
    ScoreAppend(Outputs(env, images, n - 1), env.scores(images[n - 1]), solutions, k);
  }

  /** The scores of the first n images are those of the first n - 1, then the n-th image's. */
  lemma OutputsSnoc(env: Env, images: seq<string>, n: nat)
    requires 0 < n <= |images|
    ensures Outputs(env, images, n) == Outputs(env, images, n - 1) + [env.scores(images[n - 1])]
  {
  }

  /** The fold takes one more step for one more score vector. */
  lemma {:induction false} ScoreAppend(outputs: seq<seq<int>>, out: seq<int>, solutions: seq<int>, k: nat)
    requires |outputs| < |solutions| && Rankable(outputs, k) && k <= |out|
    ensures Rankable(outputs + [out], k)
    ensures Score(outputs + [out], solutions, k) == Tally(Score(outputs, solutions, k), Pops(out, k), solutions[|outputs|])
  {
    var longer, n := outputs + [out], |outputs|;
    assert longer[..n] == outputs;
    assert longer[n] == out;
    assert forall i :: 0 <= i < n ==> longer[i] == outputs[i];
    assert Score(longer, solutions, k) == Tally(Score(longer[..n], solutions, k), Pops(longer[n], k), solutions[n]);
  }

  /**
   * runDNN without the device, the timing and the printing: load both
   * files, return early on an empty list, then run the image loop over
   * every image name, ranking K classes per image.
   */
  function RunDnn(env: Env): (r: Result<Counters, RunError>)
    ensures var listing := LoadImageNamesSolutions(env.valText);
      r.Success? ==>
        && 0 < r.value.solCounter == |listing.images| <= |listing.solutions|
        && Consistent(r.value)
        && Rankable(Outputs(env, listing.images, |listing.images|), K)
        && r.value == Score(Outputs(env, listing.images, |listing.images|), listing.solutions, K)
    ensures var listing := LoadImageNamesSolutions(env.valText);
      && (r == Failure(NoImages) <==> |listing.images| == 0)
      && (r == Failure(NoSolutions) <==> |listing.images| > 0 && |listing.solutions| == 0)
      && (r == Failure(NoWords) <==>
            |listing.images| > 0 && |listing.solutions| > 0 && |GetLines(env.wordsText)| == 0)
    ensures var listing := LoadImageNamesSolutions(env.valText);
      var labels := GetLines(env.wordsText);
      r.Success? <==>
        && |listing.images| > 0 && |listing.solutions| > 0 && |labels| > 0
        && forall i :: 0 <= i < |listing.images| ==> Completes(env, listing.images, listing.solutions, labels, K, i)
  {
    var listing := LoadImageNamesSolutions(env.valText);
    if |listing.images| == 0 then Failure(NoImages)
    else if |listing.solutions| == 0 then Failure(NoSolutions)
    else
      var labels := GetLines(env.wordsText);
      if |labels| == 0 then Failure(NoWords)
      else
        StreamOutcome(env, listing.images, listing.solutions, labels, K, |listing.images|);
        StreamScores(env, listing.images, listing.solutions, labels, K, |listing.images|);
        Stream(env, listing.images, listing.solutions, labels, K, |listing.images|)
  }

  /**
   * A run in which both lists and words.txt are non-empty and every image
   * completes, over a backend that always ranks the ground truth first,
   * succeeds and reports top-1 = top-5 = every image.
   */
  lemma PerfectBackend(env: Env)
    ensures var listing := LoadImageNamesSolutions(env.valText);
      var labels := GetLines(env.wordsText);
      var n := |listing.images|;
      (&& n > 0 && |listing.solutions| > 0 && |labels| > 0
       && forall i :: 0 <= i < n ==>
            Completes(env, listing.images, listing.solutions, labels, K, i) &&
            Rank(env.scores(listing.images[i]), listing.solutions[i]) == 0)
      ==> RunDnn(env) == Success(Counters(n, n, n))
  {
    var listing := LoadImageNamesSolutions(env.valText);
    var labels := GetLines(env.wordsText);
    var n := |listing.images|;
    if && n > 0 && |listing.solutions| > 0 && |labels| > 0
       && forall i :: 0 <= i < n ==>
            Completes(env, listing.images, listing.solutions, labels, K, i) &&
            Rank(env.scores(listing.images[i]), listing.solutions[i]) == 0
    {
      var r := RunDnn(env);
      assert r.Success?;
      PerfectScores(env, listing.images, listing.solutions, n);
    }
  }

  /** Images whose scores rank the ground truth first all count for top-1 and top-K. */
  lemma PerfectScores(env: Env, images: seq<string>, solutions: seq<int>, n: nat)
    requires n <= |images| && n <= |solutions|
    requires Rankable(Outputs(env, images, n), K)
    requires forall i :: 0 <= i < n ==> Rank(env.scores(images[i]), solutions[i]) == 0
    ensures Score(Outputs(env, images, n), solutions, K) == Counters(n, n, n)
  {
    var outputs := Outputs(env, images, n);
    assert RanksBetween(outputs, solutions, 0, 1) by {
      forall i | 0 <= i < n
        ensures Rank(outputs[i], solutions[i]) == 0
      {
        assert outputs[i] == env.scores(images[i]);
      }
    }
    AlwaysRankedFirst(outputs, solutions, K);
  }

}
