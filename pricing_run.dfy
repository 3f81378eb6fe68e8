/**
  `main` of extract-pricing-data.js: one price list per URL of
  pricing-urls.json, written under the slug of the facility's name into the
  pricing directory, held as a map from file name to contents. Each URL comes
  with the response it received and the timestamp of its extraction.
 */
module PricingRun {
  import opened Results
  import opened JsValues
  import opened Replies
  import opened Artifacts
  import opened Slugs

  /** One iteration of the loop: the URL, its response and its timestamp. */
  datatype Job = Job(url: string, response: Response, extractedAt: string)

  /** `pricing.name` as `toLowerCase` needs it: a string, or a TypeError. */
  function FacilityName(pricing: Json): (r: Option<string>)
    ensures r.Some? <==> pricing.JObject? && "name" in pricing.fields && pricing.fields["name"].JString?
    ensures r.Some? ==> r.value == pricing.fields["name"].s
  {
    match GetProperty(Defined(pricing), "name")
    case Some(Defined(JString(name))) => Some(name)
    case _ => None
  }

  /** The file name `${slugify(name)}.json`. */
  function FileName(name: string): (r: string)
    ensures |r| >= 5 && r[|r| - 5..] == ".json" && IsSlug(r[..|r| - 5])
  {
    var stem := Slugify(name);
    assert (stem + ".json")[..|stem|] == stem;
    stem + ".json"
  }

  /** Lines 159-176 for one URL: the file written, or the error caught. A
      file is written exactly when the extraction succeeds with a string
      `name`; it holds the price list stamped with this URL. */
  function Outcome(job: Job, parse: Parser): (r: Result<(string, Json), Failure>)
    ensures r.Ok? <==> ExtractPricing(job.response, parse).Ok?
                       && FacilityName(ExtractPricing(job.response, parse).value).Some?
    ensures ExtractPricing(job.response, parse).Err? ==> r == Err(ExtractPricing(job.response, parse).error)
    ensures r.Ok? ==> r.value.0 == FileName(FacilityName(ExtractPricing(job.response, parse).value).value)
    ensures r.Ok? ==> r.value.1 == WithMetadata(ExtractPricing(job.response, parse).value, job.url, job.extractedAt, PricingScript)
    ensures r.Ok? ==> r.value.1.JObject? && MetadataKey in r.value.1.fields
                      && r.value.1.fields[MetadataKey] == Metadata(job.url, job.extractedAt, PricingScript)
  {
    match ExtractPricing(job.response, parse)
    case Err(f) => Err(f)
    case Ok(pricing) =>
      var output := WithMetadata(pricing, job.url, job.extractedAt, PricingScript);
      match FacilityName(pricing)
      case None => Err(TypeError)
      case Some(name) => Ok((FileName(name), output))
  }

  /** The outcomes of the URLs, in order. */
  function Outcomes(jobs: seq<Job>, parse: Parser): (r: seq<Result<(string, Json), Failure>>)
    ensures |r| == |jobs| && forall i :: 0 <= i < |jobs| ==> r[i] == Outcome(jobs[i], parse)
  {
    seq(|jobs|, i requires 0 <= i < |jobs| => Outcome(jobs[i], parse))
  }

  /** The directory after the writes of `outcomes`, one after another. */
  function Apply(files: map<string, Json>, outcomes: seq<Result<(string, Json), Failure>>): (r: map<string, Json>)
    ensures files.Keys <= r.Keys
    ensures forall k :: k in r && k !in files ==> exists i :: 0 <= i < |outcomes| && outcomes[i] == Ok((k, r[k]))
    decreases |outcomes|
  {
    if outcomes == [] then files
    else
      var before := Apply(files, outcomes[..|outcomes| - 1]);
      match outcomes[|outcomes| - 1]
      case Err(_) => before
      case Ok((name, output)) => before[name := output]
  }

  /** The pricing directory after the loop has run over `jobs`. */
  function Written(files: map<string, Json>, jobs: seq<Job>, parse: Parser): map<string, Json> {
    Apply(files, Outcomes(jobs, parse))
  }

  /** Every file the loop adds is the output of one of the URLs, named by the
      slug of its facility and stamped with that URL. */
  lemma AddedFilesComeFromJobs(files: map<string, Json>, jobs: seq<Job>, parse: Parser, k: string)
    requires k in Written(files, jobs, parse) && k !in files
    ensures exists i :: 0 <= i < |jobs| && Outcome(jobs[i], parse) == Ok((k, Written(files, jobs, parse)[k]))
    ensures |k| >= 5 && k[|k| - 5..] == ".json" && IsSlug(k[..|k| - 5])
  {
    var os := Outcomes(jobs, parse);
    var i := AddedFileHasWrite(files, os, k);
    assert os[i] == Outcome(jobs[i], parse);
    OkOutcomeIsSlugFile(jobs[i], parse);
  }

  /** The write that put a new file into the directory. */
  lemma AddedFileHasWrite(files: map<string, Json>, os: seq<Result<(string, Json), Failure>>, k: string) returns (i: nat)
    requires k in Apply(files, os) && k !in files
    ensures i < |os| && os[i] == Ok((k, Apply(files, os)[k]))
  {
    i :| 0 <= i < |os| && os[i] == Ok((k, Apply(files, os)[k]));
  }

  /** The file an outcome writes is named `<slug>.json`. */
  lemma OkOutcomeIsSlugFile(job: Job, parse: Parser)
    requires Outcome(job, parse).Ok?
    ensures var k := Outcome(job, parse).value.0;
            |k| >= 5 && k[|k| - 5..] == ".json" && IsSlug(k[..|k| - 5])
  {
  }

  lemma {:induction false} ApplyConcat(files: map<string, Json>, a: seq<Result<(string, Json), Failure>>, b: seq<Result<(string, Json), Failure>>)
    ensures Apply(files, a + b) == Apply(Apply(files, a), b)
    decreases |b|
  {
    if b == [] {
      assert a + b == a;
    } else {
      assert (a + b)[..|a + b| - 1] == a + b[..|b| - 1];
      assert (a + b)[|a + b| - 1] == b[|b| - 1];
      ApplyConcat(files, a, b[..|b| - 1]);
    }
  }

  /** Processing a list of URLs is processing its first part, then the rest
      on what the first part left. */
  lemma WrittenConcat(files: map<string, Json>, a: seq<Job>, b: seq<Job>, parse: Parser)
    ensures Written(files, a + b, parse) == Written(Written(files, a, parse), b, parse)
  {
    OutcomesConcat(a, b, parse);
    ApplyConcat(files, Outcomes(a, parse), Outcomes(b, parse));
  }

  lemma OutcomesConcat(a: seq<Job>, b: seq<Job>, parse: Parser)
    ensures Outcomes(a + b, parse) == Outcomes(a, parse) + Outcomes(b, parse)
  {
    var l, r := Outcomes(a + b, parse), Outcomes(a, parse) + Outcomes(b, parse);
    forall i | 0 <= i < |a + b| ensures l[i] == r[i] {
      if i < |a| {
        assert (a + b)[i] == a[i];
      } else {
        assert (a + b)[i] == b[i - |a|];
      }
    }
  }

  /** A failed outcome at the end writes nothing. */
  lemma DropFailure(files: map<string, Json>, os: seq<Result<(string, Json), Failure>>, o: Result<(string, Json), Failure>)
    requires o.Err?
    ensures Apply(files, os + [o]) == Apply(files, os)
  {
    assert (os + [o])[..|os|] == os;
  }

  /** A URL that fails leaves the directory as it was, and the URLs after it
      are still processed. */
  lemma FailedJobIsSkipped(files: map<string, Json>, before: seq<Job>, job: Job, after: seq<Job>, parse: Parser)
    requires Outcome(job, parse).Err?
    ensures Written(files, before + [job] + after, parse) == Written(files, before + after, parse)
  {
    var A, o, B := Outcomes(before, parse), Outcome(job, parse), Outcomes(after, parse);
    OutcomesConcat(before + [job], after, parse);
    OutcomesConcat(before, [job], parse);
    assert Outcomes([job], parse) == [o];
    OutcomesConcat(before, after, parse);
    ApplyConcat(files, A + [o], B);
    ApplyConcat(files, A, B);
    DropFailure(files, A, o);
  }

  /** A file that no outcome writes keeps its old contents. */
  lemma {:induction false} ApplyKeeps(files: map<string, Json>, os: seq<Result<(string, Json), Failure>>, k: string)
    requires k in files
    requires forall i :: 0 <= i < |os| && os[i].Ok? ==> os[i].value.0 != k
    ensures Apply(files, os)[k] == files[k]
    decreases |os|
  {
    if os != [] {
      ApplyKeeps(files, os[..|os| - 1], k);
    }
  }

  /** A file no URL writes keeps its old contents. */
  lemma UnwrittenFileIsKept(files: map<string, Json>, jobs: seq<Job>, parse: Parser, k: string)
    requires k in files
    requires forall i :: 0 <= i < |jobs| && Outcome(jobs[i], parse).Ok? ==> Outcome(jobs[i], parse).value.0 != k
    ensures Written(files, jobs, parse)[k] == files[k]
  {
    ApplyKeeps(files, Outcomes(jobs, parse), k);
  }

  /** The last write of a name decides the file's contents. */
  lemma {:induction false} ApplyLastWins(files: map<string, Json>, os: seq<Result<(string, Json), Failure>>, i: nat)
    requires i < |os| && os[i].Ok?
    requires forall j :: i < j < |os| && os[j].Ok? ==> os[j].value.0 != os[i].value.0
    ensures os[i].value.0 in Apply(files, os) && Apply(files, os)[os[i].value.0] == os[i].value.1
    decreases |os|
  {
    if i < |os| - 1 {
      ApplyLastWins(files, os[..|os| - 1], i);
    }
  }

  /** The file of a slug holds the price list of the last URL that produced
      that slug, stamped with that URL: a later URL overwrites an earlier one. */
  lemma LastWriteWins(files: map<string, Json>, jobs: seq<Job>, parse: Parser, i: nat)
    requires i < |jobs| && Outcome(jobs[i], parse).Ok?
    requires forall j :: i < j < |jobs| && Outcome(jobs[j], parse).Ok? ==> Outcome(jobs[j], parse).value.0 != Outcome(jobs[i], parse).value.0
    ensures var (name, output) := Outcome(jobs[i], parse).value;
            name in Written(files, jobs, parse) && Written(files, jobs, parse)[name] == output
            && output.fields[MetadataKey] == Metadata(jobs[i].url, jobs[i].extractedAt, PricingScript)
  {
    ApplyLastWins(files, Outcomes(jobs, parse), i);
  }

  /** One more outcome is one more write, or none. */
  lemma ApplyStep(files: map<string, Json>, os: seq<Result<(string, Json), Failure>>, i: nat)
    requires i < |os|
    ensures Apply(files, os[..i + 1]) == if os[i].Ok? then Apply(files, os[..i])[os[i].value.0 := os[i].value.1]
                                         else Apply(files, os[..i])
  {
    assert os[..i + 1][..i] == os[..i];
  }

  /** The pricing directory, changed in place by the loop. */
  class PricingDir {
    var files: map<string, Json>

    constructor(files: map<string, Json>)
      ensures this.files == files
    {
      this.files := files;
    }

    /** Lines 159-176 for one URL: extract, stamp, and save under the slug of
        the name; an error leaves the directory as it was. */
    method Save(job: Job, parse: Parser)
      modifies this
      ensures files == if Outcome(job, parse).Ok? then old(files)[Outcome(job, parse).value.0 := Outcome(job, parse).value.1]
                       else old(files)
    {
      var pricing := ExtractPricing(job.response, parse);
      if pricing.Ok? {
        var output := WithMetadata(pricing.value, job.url, job.extractedAt, PricingScript);
        var name := FacilityName(pricing.value);
        if name.Some? {
          files := files[FileName(name.value) := output];
        }
      }
    }

    /** Lines 157-178: each URL in turn; a failure is reported and skipped. */
    method Run(jobs: seq<Job>, parse: Parser)
      modifies this
      ensures files == Written(old(files), jobs, parse)
    {
      var i := 0;
      while i < |jobs|
        invariant 0 <= i <= |jobs|
        invariant files == Apply(old(files), Outcomes(jobs, parse)[..i])
      {
        ApplyStep(old(files), Outcomes(jobs, parse), i);
        Save(jobs[i], parse);
        i := i + 1;
      }
      assert Outcomes(jobs, parse)[..|jobs|] == Outcomes(jobs, parse);
    }
  }
}
