/**
 * The file name and path an image is saved under. Numbers enter the name through `str()`, so the
 * model takes their formatted text as input.
 */
module Naming {
  import opened Wrappers

  /** `str(a)`, `str(b)`, `str(initial_color_hue)` and `str(color_scale)` as they appear in the name. */
  datatype Labels = Labels(a: string, b: string, hue: string, scale: string)

  /** The tail every name ends with: `'_inithue_scale_' + hue + '_' + scale + '.png'`. */
  function HueScaleTail(l: Labels): string {
    "_inithue_scale_" + l.hue + "_" + l.scale + ".png"
  }

  /**
   * The Julia and exotic renderers' name: `['job_' + job] + ['_a_' or 'a_'] + a + '_b_' + b` and the
   * hue/scale tail.
   */
  function ParameterName(job: Option<string>, l: Labels): string {
    match job
    case Some(j) => "job_" + j + "_a_" + l.a + "_b_" + l.b + HueScaleTail(l)
    case None => "a_" + l.a + "_b_" + l.b + HueScaleTail(l)
  }

  /** The Mandelbrot renderer's name: `['job_' + job] + ['_inithue_scale_' or 'inithue_scale_']` ... `'.png'`. */
  function HueScaleName(job: Option<string>, l: Labels): string {
    match job
    case Some(j) => "job_" + j + HueScaleTail(l)
    case None => HueScaleTail(l)[1..]
  }

  /** `directory + '/' + save_name`, or the bare name without a directory. */
  function SavePath(directory: Option<string>, name: string): string {
    match directory
    case Some(d) => d + "/" + name
    case None => name
  }

  /** Where the image goes: nowhere unless `image_save`. */
  function SaveTarget(imageSave: bool, directory: Option<string>, name: string): Option<string> {
    if imageSave then Some(SavePath(directory, name)) else None
  }

  predicate EndsWith(s: string, suffix: string) {
    |suffix| <= |s| && s[|s| - |suffix|..] == suffix
  }

  predicate StartsWith(s: string, prefix: string) {
    |prefix| <= |s| && s[..|prefix|] == prefix
  }

  lemma EndsWithAppend(p: string, s: string, suffix: string)
    requires EndsWith(s, suffix)
    ensures EndsWith(p + s, suffix)
  {
    assert (p + s)[|p + s| - |suffix|..] == s[|s| - |suffix|..];
  }

  lemma StartsWithAppend(p: string, s: string)
    ensures StartsWith(p + s, p)
  {
    assert (p + s)[..|p|] == p;
  }

  lemma TailEndsWithPng(l: Labels)
    ensures EndsWith(HueScaleTail(l), ".png")
  {
    var t := HueScaleTail(l);
    assert t == ("_inithue_scale_" + l.hue + "_" + l.scale) + ".png";
    EndsWithAppend("_inithue_scale_" + l.hue + "_" + l.scale, ".png", ".png");
  }

  /** A job number is written in front of the job-less name, joined by `_`. */
  lemma JobPrefixesName(j: string, l: Labels)
    ensures ParameterName(Some(j), l) == "job_" + j + "_" + ParameterName(None, l)
    ensures HueScaleName(Some(j), l) == "job_" + j + "_" + HueScaleName(None, l)
  {
    var t := HueScaleTail(l);
    assert t == "_" + t[1..];
  }

  /** Every name ends in `.png`, with or without a job. */
  lemma NamesEndWithPng(job: Option<string>, l: Labels)
    ensures EndsWith(ParameterName(job, l), ".png")
    ensures EndsWith(HueScaleName(job, l), ".png")
  {
    TailEndsWithPng(l);
    var t := HueScaleTail(l);
    match job
    case Some(j) =>
      EndsWithAppend("job_" + j + "_a_" + l.a + "_b_" + l.b, t, ".png");
      assert ParameterName(job, l) == ("job_" + j + "_a_" + l.a + "_b_" + l.b) + t;
      EndsWithAppend("job_" + j, t, ".png");
      assert HueScaleName(job, l) == ("job_" + j) + t;
    case None =>
      EndsWithAppend("a_" + l.a + "_b_" + l.b, t, ".png");
      assert ParameterName(job, l) == ("a_" + l.a + "_b_" + l.b) + t;
      assert t == "_" + t[1..];
      assert EndsWith(t[1..], ".png");
  }

  lemma ParameterNameStarts(job: Option<string>, l: Labels)
    ensures job.Some? ==> StartsWith(ParameterName(job, l), "job_")
    ensures job.None? ==> StartsWith(ParameterName(job, l), "a_")
  {
    match job
    case Some(j) =>
      StartsWithAppend("job_", j + "_a_" + l.a + "_b_" + l.b + HueScaleTail(l));
      assert ParameterName(job, l) == "job_" + (j + "_a_" + l.a + "_b_" + l.b + HueScaleTail(l));
    case None =>
      StartsWithAppend("a_", l.a + "_b_" + l.b + HueScaleTail(l));
      assert ParameterName(job, l) == "a_" + (l.a + "_b_" + l.b + HueScaleTail(l));
  }

  lemma HueScaleNameStarts(job: Option<string>, l: Labels)
    ensures job.Some? ==> StartsWith(HueScaleName(job, l), "job_")
    ensures job.None? ==> StartsWith(HueScaleName(job, l), "inithue_scale_")
  {
    match job
    case Some(j) =>
      StartsWithAppend("job_", j + HueScaleTail(l));
      assert HueScaleName(job, l) == "job_" + (j + HueScaleTail(l));
    case None =>
      assert HueScaleName(job, l) == "inithue_scale_" + (l.hue + "_" + l.scale + ".png");
      StartsWithAppend("inithue_scale_", l.hue + "_" + l.scale + ".png");
  }

  /** Names with a job start with `job_`; names without one start with `a_` or `inithue_scale_`. */
  lemma NameStarts(job: Option<string>, l: Labels)
    ensures job.Some? ==> StartsWith(ParameterName(job, l), "job_") && StartsWith(HueScaleName(job, l), "job_")
    ensures job.None? ==> StartsWith(ParameterName(job, l), "a_") && StartsWith(HueScaleName(job, l), "inithue_scale_")
  {
    ParameterNameStarts(job, l);
    HueScaleNameStarts(job, l);
  }

  /** An image saved for a job never overwrites one saved without a job, and vice versa. */
  lemma JobNamesDistinct(j: string, l: Labels)
    ensures ParameterName(Some(j), l) != ParameterName(None, l)
    ensures HueScaleName(Some(j), l) != HueScaleName(None, l)
  {
    NameStarts(Some(j), l);
    NameStarts(None, l);
    assert ParameterName(Some(j), l)[0] == 'j' && ParameterName(None, l)[0] == 'a';
    assert HueScaleName(Some(j), l)[0] == 'j' && HueScaleName(None, l)[0] == 'i';
  }

  /** Two jobs with the same parameters get different names: the job can be read back from the name. */
  lemma JobRecoverable(j1: string, j2: string, l: Labels)
    requires ParameterName(Some(j1), l) == ParameterName(Some(j2), l) || HueScaleName(Some(j1), l) == HueScaleName(Some(j2), l)
    ensures j1 == j2
  {
    JobPrefixesName(j1, l);
    JobPrefixesName(j2, l);
    var r := if ParameterName(Some(j1), l) == ParameterName(Some(j2), l) then ParameterName(None, l) else HueScaleName(None, l);
    var n1, n2 := "job_" + j1 + "_" + r, "job_" + j2 + "_" + r;
    assert n1 == n2;
    assert |j1| == |j2|;
    assert j1 == n1[4..4 + |j1|];
    assert j2 == n2[4..4 + |j2|];
  }

  /** The saved path ends with the name; with a directory it starts with `directory + '/'`. */
  lemma SavePathShape(directory: Option<string>, name: string)
    ensures EndsWith(SavePath(directory, name), name)
    ensures directory.Some? ==> StartsWith(SavePath(directory, name), directory.value + "/")
    ensures directory.None? ==> SavePath(directory, name) == name
  {
    match directory
    case Some(d) =>
      EndsWithAppend(d + "/", name, name);
      StartsWithAppend(d + "/", name);
    case None =>
      assert SavePath(directory, name)[0..] == name;
  }
}
