/**
  One paginated `describe_instances` listing as the script sees it: each page
  either arrives, carrying the values the JMESPath projection picked out of
  it, or its fetch raises. The scan loops give up on the first page that
  raises and return no list at all.
 */
module Pages {

  /** The two `except` arms of the scan loops: a boto3 `ClientError`, or any
      other exception. Each carries the exception's text. */
  datatype Raised = ClientError(cause: string) | OtherException(cause: string)

  /** One step of a paginator. */
  datatype Fetch = Page(values: seq<string>) | Raise(exc: Raised)

  /** The method in which a re-raised exception was caught. */
  datatype Stage = GetAllInstanceAmis | GetAssociatedInstances
  {
    function Name(): string
    {
      match this
      case GetAllInstanceAmis => "getAllInstanceAmis"
      case GetAssociatedInstances => "getAssociatedInstances"
    }
  }

  /** A failure of the report: an exception one of the scan loops caught and
      re-raised with its own prefix, or an exception `describe_images` raised
      that nothing caught. */
  datatype Error = Reraised(stage: Stage, exc: Raised) | Uncaught(exc: Raised)
  {
    /** The text of the exception the caller finally sees. */
    function Message(): string
    {
      match this
      case Reraised(stage, exc) => Prefix(stage, exc) + exc.cause
      case Uncaught(exc) => exc.cause
    }
  }

  /** The text a scan loop puts before the text of the exception it caught. */
  function Prefix(stage: Stage, exc: Raised): string
  {
    match exc
    case ClientError(_) => "boto3 ClientError in " + stage.Name() + ": "
    case OtherException(_) => "Unexpected error in " + stage.Name() + ": "
  }

  /** Two strings with a common extension agree on the shorter one's length. */
  lemma CommonPrefix(p: string, c: string, q: string, d: string)
    requires p + c == q + d && |p| <= |q|
    ensures q[..|p|] == p
  {
    assert (p + c)[..|p|] == p;
    assert (q + d)[..|p|] == q[..|p|];
  }

  /** The message of a re-raised exception tells which method caught it,
      which kind of exception it was and the exception's own text. */
  lemma {:induction false} MessageIdentifiesFailure(a: Error, b: Error)
    requires a.Reraised? && b.Reraised?
    requires a.Message() == b.Message()
    ensures a == b
  {
    var p, q := Prefix(a.stage, a.exc), Prefix(b.stage, b.exc);
    if |p| <= |q| {
      CommonPrefix(p, a.exc.cause, q, b.exc.cause);
    } else {
      CommonPrefix(q, b.exc.cause, p, a.exc.cause);
    }
    assert p[0] == q[0];
    assert a.exc.ClientError? == b.exc.ClientError?;
    // "getAllInstanceAmis" and "getAssociatedInstances" part at their fifth letter
    var k := if a.exc.ClientError? then 25 else 24;
    assert p[k] == q[k];
    assert a.stage == b.stage;
    assert a.exc.cause == b.exc.cause by {
      assert (p + a.exc.cause)[|p|..] == a.exc.cause;
      assert (q + b.exc.cause)[|q|..] == b.exc.cause;
    }
  }

  datatype Result<T, E> = Ok(value: T) | Err(error: E)

  /** All pages of a listing, or the first exception raised while fetching
      them: nothing of the earlier pages survives a failure. */
  function Collect(listing: seq<Fetch>): Result<seq<seq<string>>, Raised>
  {
    if |listing| == 0 then Ok([])
    else
      var last := listing[|listing| - 1];
      match Collect(listing[..|listing| - 1])
      case Err(e) => Err(e)
      case Ok(pages) =>
        match last
        case Raise(exc) => Err(exc)
        case Page(values) => Ok(pages + [values])
  }

  /** The listing succeeds exactly when every page arrives, and then yields
      every page's values in order; otherwise it fails with the exception of
      the first page that raised. */
  lemma {:induction false} CollectOutcome(listing: seq<Fetch>)
    ensures Collect(listing).Ok? <==> forall i :: 0 <= i < |listing| ==> listing[i].Page?
    ensures Collect(listing).Ok? ==> |Collect(listing).value| == |listing|
    ensures Collect(listing).Ok? ==>
      forall i :: 0 <= i < |listing| ==> Collect(listing).value[i] == listing[i].values
    ensures Collect(listing).Err? ==>
      exists i :: 0 <= i < |listing| && listing[i] == Raise(Collect(listing).error) &&
        (forall j :: 0 <= j < i ==> listing[j].Page?)
  {
    if |listing| > 0 {
      var n := |listing| - 1;
      var init := listing[..n];
      CollectOutcome(init);
      assert forall i :: 0 <= i < n ==> init[i] == listing[i];
      match Collect(init)
      case Err(e) =>
        var i :| 0 <= i < n && init[i] == Raise(e) && (forall j :: 0 <= j < i ==> init[j].Page?);
        assert listing[i] == Raise(e);
      case Ok(pages) =>
        if listing[n].Raise? {
          assert Collect(listing) == Err(listing[n].exc);
        } else {
          assert Collect(listing) == Ok(pages + [listing[n].values]);
        }
    }
  }

  /** Fetching one more page extends the collected pages by it. */
  lemma CollectSnoc(listing: seq<Fetch>, values: seq<string>)
    requires Collect(listing).Ok?
    ensures Collect(listing + [Page(values)]) == Ok(Collect(listing).value + [values])
  {
    assert (listing + [Page(values)])[..|listing|] == listing;
  }

  /** Once every page before `i` has arrived, a raise at page `i` is the
      failure of the whole listing. */
  lemma CollectStopsAt(listing: seq<Fetch>, i: nat)
    requires i < |listing| && listing[i].Raise?
    requires Collect(listing[..i]).Ok?
    ensures Collect(listing) == Err(listing[i].exc)
  {
    var upto := listing[..i + 1];
    assert upto[..i] == listing[..i];
    assert Collect(upto) == Err(listing[i].exc);
    CollectPrefixErr(listing, i + 1);
  }

  /** Once a prefix of the listing has failed, later pages change nothing. */
  lemma {:induction false} CollectPrefixErr(listing: seq<Fetch>, k: nat)
    requires k <= |listing|
    requires Collect(listing[..k]).Err?
    ensures Collect(listing) == Collect(listing[..k])
  {
    if k == |listing| {
      assert listing[..k] == listing;
    } else {
      var init := listing[..|listing| - 1];
      assert init[..k] == listing[..k];
      CollectPrefixErr(init, k);
    }
  }

  /** Once every page before `i` has arrived, page `i` arriving extends the
      collected pages by its values. */
  lemma CollectStep(listing: seq<Fetch>, i: nat)
    requires i < |listing| && listing[i].Page?
    requires Collect(listing[..i]).Ok?
    ensures Collect(listing[..i + 1]) == Ok(Collect(listing[..i]).value + [listing[i].values])
  {
    assert listing[..i + 1] == listing[..i] + [listing[i]];
    CollectSnoc(listing[..i], listing[i].values);
  }
}
