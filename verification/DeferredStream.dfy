/**
 What a deferred response sends, in the terms of the response itself: its `data`, less the fields
 of the enabled fragments, its `errors`, and patches that give the `data` back.
 */
module DeferredStream {
  import opened Sets
  import opened Wrappers
  import opened JsonTree
  import opened PathTexts
  import opened Deferral

  // ----- the segments of a path ---------------------------------------------------------

  lemma {:induction false} DigitsParsed(s: string, c: char, acc: nat)
    requires '0' <= c <= '9' && ParseDigits(s, acc).Some?
    ensures ParseDigits(s + [c], acc) == Some(ParseDigits(s, acc).value * 10 + (c as int - '0' as int))
  {
    if s == "" {
      assert s + [c] == [c] && [c][1..] == "";
    } else {
      assert (s + [c])[1..] == s[1..] + [c];
      DigitsParsed(s[1..], c, acc * 10 + (s[0] as int - '0' as int));
    }
  }

  lemma {:induction false} DecimalParsed(n: nat)
    ensures ParseDigits(Decimal(n), 0) == Some(n)
  {
    if n < 10 {
      assert Decimal(n)[1..] == "";
    } else {
      DecimalParsed(n / 10);
      DigitsParsed(Decimal(n / 10), '0' + (n % 10) as char, 0);
    }
  }

  /** A number below 2^64 is a position. */
  lemma NumberIsPosition(n: nat)
    requires n < 0x1_0000_0000_0000_0000
    ensures Steps([Decimal(n)]) == [Index(n)]
  {
    DecimalParsed(n);
    assert Decimal(n)[0] in Decimal(n);
  }

  lemma {:induction false} OtherNotParsed(s: string, i: nat, acc: nat)
    requires i < |s| && !('0' <= s[i] <= '9')
    ensures ParseDigits(s, acc) == None
  {
    if i > 0 && '0' <= s[0] <= '9' {
      OtherNotParsed(s[1..], i - 1, acc * 10 + (s[0] as int - '0' as int));
    }
  }

  /** A segment that is empty or has another character than digits, a leading plus apart, is a name. */
  lemma OtherIsName(segment: string, i: nat)
    requires segment == "" || (i < |segment| && !('0' <= segment[i] <= '9') && !(i == 0 && segment[0] == '+'))
    ensures Steps([segment]) == [Key(segment)]
  {
    if segment != "" {
      if segment[0] == '+' {
        OtherNotParsed(segment[1..], i - 1, 0);
      } else {
        OtherNotParsed(segment, i, 0);
      }
    }
  }

  // ----- the first part -----------------------------------------------------------------

  lemma {:induction false} ActiveAre(fragments: seq<Fragment>)
    ensures forall f :: f in Active(fragments) <==> f in fragments && !f.disabled
  {
    if fragments != [] {
      ActiveAre(fragments[1..]);
      assert fragments == [fragments[0]] + fragments[1..];
    }
  }

  lemma {:induction false} NoneActive(fragments: seq<Fragment>)
    requires forall f <- fragments :: f.disabled
    ensures Active(fragments) == []
  {
    if fragments != [] {
      NoneActive(fragments[1..]);
    }
  }

  /** One of the fragments takes the place. */
  ghost predicate Taken(fragments: seq<Fragment>, place: seq<Step>) {
    exists f <- fragments :: InFields(Steps(f.path), f.fields, place)
  }

  /** Taking the fields out leaves just the places that no fragment takes. */
  lemma {:induction false} LeftIff(data: Json, fragments: seq<Fragment>, place: seq<Step>)
    ensures Has(ExtractAll(data, fragments).0, place) <==> Has(data, place) && !Taken(fragments, place)
    decreases |fragments|
  {
    hide Steps, Extract, Has, InFields, Brings;
    if fragments != [] {
      var f := fragments[0];
      var rest := Extract(data, Steps(f.path), f.fields).0;
      ExtractSplits(data, Steps(f.path), f.fields, f.tag, place);
      LeftIff(rest, fragments[1..], place);
      TakenFirst(fragments, place);
      AllButFirst(data, fragments);
    } else {
      ExtractNothing(data);
    }
  }

  lemma AllButFirst(data: Json, fragments: seq<Fragment>)
    requires fragments != []
    ensures var f := fragments[0];
      ExtractAll(data, fragments).0 == ExtractAll(Extract(data, Steps(f.path), f.fields).0, fragments[1..]).0
  {
    hide Steps, Extract;
  }

  lemma TakenFirst(fragments: seq<Fragment>, place: seq<Step>)
    requires fragments != []
    ensures Taken(fragments, place)
       <==> InFields(Steps(fragments[0].path), fragments[0].fields, place) || Taken(fragments[1..], place)
  {
    hide Steps, InFields;
    assert fragments == [fragments[0]] + fragments[1..];
  }

  /** Whatever the timing, the first part has the places of the data that no enabled fragment takes, and the errors. */
  lemma FirstPart(fields: map<string, Json>, fragments: seq<Fragment>, elapsed: seq<nat>, limit: nat)
    requires |elapsed| >= |fragments| && "data" in fields
    ensures
      var parts := Stream(Obj(fields), fragments, elapsed, limit);
      && parts != [] && parts[0].Initial?
      && (forall place :: Has(parts[0].data, place)
            <==> Has(fields["data"], place)
                 && forall f <- fragments :: InFields(Steps(f.path), f.fields, place) ==> f.disabled)
      && ((forall f <- fragments :: f.disabled) ==> parts[0].data == fields["data"])
      && parts[0].errors == if "errors" in fields && fields["errors"].Arr? then fields["errors"].items else []
  {
    hide ExtractAll, Incremental, Steps, Has, InFields;
    var active := Active(fragments);
    var parts := Stream(Obj(fields), fragments, elapsed, limit);
    ResponseData(fields);
    ActiveAre(fragments);
    ExtractNothing(fields["data"]);
    assert parts[0].data == ExtractAll(fields["data"], active).0;
    if forall f <- fragments :: f.disabled {
      NoneActive(fragments);
    }
    forall place
      ensures Has(parts[0].data, place)
         <==> Has(fields["data"], place)
              && forall f <- fragments :: InFields(Steps(f.path), f.fields, place) ==> f.disabled
    {
      LeftIff(fields["data"], active, place);
    }
  }

  lemma ResponseData(fields: map<string, Json>)
    requires "data" in fields
    ensures DataOf(Obj(fields)) == fields["data"]
    ensures ExtractErrors(Obj(fields)) == if "errors" in fields && fields["errors"].Arr? then fields["errors"].items else []
  {
  }

  /** A response that is no object, or has no `data`, counts as null. */
  lemma NoData(response: Json, fragments: seq<Fragment>, elapsed: seq<nat>, limit: nat)
    requires |elapsed| >= |fragments| && !(response.Obj? && "data" in response.fields)
    ensures Stream(response, fragments, elapsed, limit)[0].data == Null
  {
    hide Extract, Incremental;
    NullStays(Active(fragments));
  }

  lemma {:induction false} NullStays(fragments: seq<Fragment>)
    ensures ExtractAll(Null, fragments).0 == Null
    decreases |fragments|
  {
    hide Steps;
    if fragments != [] {
      NullStays(fragments[1..]);
    }
  }

  // ----- all of it ----------------------------------------------------------------------

  /** Without a timeout, merging what a client receives last to first gives the response's `data`. */
  lemma ClientHasData(fields: map<string, Json>, fragments: seq<Fragment>, elapsed: seq<nat>, limit: nat)
    requires |elapsed| >= |fragments| && "data" in fields
    requires forall i :: 0 <= i < |fragments| ==> elapsed[i] <= limit
    ensures
      var parts := Stream(Obj(fields), fragments, elapsed, limit);
      && parts != [] && parts[0].Initial?
      && MergeBackward(parts[0].data, Received(parts)) == fields["data"]
      && (MergeForward(parts[0].data, Received(parts)) == fields["data"]
          <==> NoneTaken(fields["data"], Active(fragments)))
  {
    hide Stream, Received, NoneTaken;
    ResponseData(fields);
    StreamRestores(Obj(fields), fragments, elapsed, limit);
  }

  /** The patches come in the order of the enabled fragments, each with its fragment's path and label. */
  lemma PatchesInOrder(response: Json, fragments: seq<Fragment>, elapsed: seq<nat>, limit: nat)
    requires |elapsed| >= |fragments|
    ensures
      var received := Received(Stream(response, fragments, elapsed, limit));
      && |received| <= |Active(fragments)|
      && forall i :: 0 <= i < |received| ==>
           received[i].path == Steps(Active(fragments)[i].path) && received[i].tag == Active(fragments)[i].tag
  {
    hide ExtractAll, Incremental, Steps, TimesOut, ExtractErrors, DataOf, Active;
    var active := Active(fragments);
    var parts := Stream(response, fragments, elapsed, limit);
    if active == [] {
      assert Received(parts) == [] + Received(parts[1..]) == [];
    } else {
      var patches := ExtractAll(DataOf(response), active).1;
      PatchesOfFragments(DataOf(response), active);
      ReceivedIncremental(patches, elapsed, limit);
      assert parts[1..] == Incremental(patches, elapsed, limit);
      assert Received(parts) == [] + Received(parts[1..]);
    }
  }
}
