/**
 * The `concat` transform: `ConcatConfig::build`, which parses every item
 * or fails, and `Concat::transform`, which joins byte slices of the named
 * fields into a target field.
 */
module Concat {
  import opened Options
  import opened ConcatSubstring
  import opened Event
  import Text

  /** The configuration as deserialized: target field, joiner and item specs. */
  datatype ConcatConfig = ConcatConfig(target: string, joiner: string, items: seq<string>)

  /** The built transform. */
  datatype Concat = Concat(target: string, joiner: string, items: seq<Substring>)

  /** `p` is a failed parse and `r` carries the same failure. */
  predicate FailsAs<T>(p: Outcome<Substring>, r: Outcome<T>)
  {
    (p.Err? && r == Err(p.error)) || (p.Panic? && r.Panic?)
  }

  /** `items.iter().map(Substring::new).collect::<Result<Vec<_>, _>>()`:
      every item parsed in order, or the failure of the first item that
      does not parse (later items are not looked at). */
  function ParseItems(items: seq<string>): (r: Outcome<seq<Substring>>)
    ensures r.Ok? <==> forall i :: 0 <= i < |items| ==> Parse(items[i]).Ok?
    ensures r.Ok? ==> |r.value| == |items| && forall i :: 0 <= i < |items| ==> Parse(items[i]) == Ok(r.value[i])
    ensures !r.Ok? ==> exists k :: 0 <= k < |items| && FailsAs(Parse(items[k]), r)
                                   && forall i :: 0 <= i < k ==> Parse(items[i]).Ok?
  {
    if items == [] then Ok([])
    else
      match Parse(items[0])
      case Err(e) => Err(e)
      case Panic => Panic
      case Ok(first) =>
        var rest := ParseItems(items[1..]);
        if rest.Ok? then Ok([first] + rest.value) else rest
  }

  /** `ConcatConfig::build`: all or nothing over the items. */
  function Build(config: ConcatConfig): (r: Outcome<Concat>)
    ensures r.Ok? <==> forall i :: 0 <= i < |config.items| ==> Parse(config.items[i]).Ok?
    ensures r.Ok? ==> && r.value.target == config.target && r.value.joiner == config.joiner
                      && |r.value.items| == |config.items|
                      && forall i :: 0 <= i < |config.items| ==> Parse(config.items[i]) == Ok(r.value.items[i])
    ensures !r.Ok? ==> exists k :: 0 <= k < |config.items| && FailsAs(Parse(config.items[k]), r)
                                   && forall i :: 0 <= i < k ==> Parse(config.items[i]).Ok?
  {
    match ParseItems(config.items)
    case Ok(subs) => Ok(Concat(config.target, config.joiner, subs))
    case Err(e) => Err(e)
    case Panic => Panic
  }

  // ---------------------------------------------------------------------
  // The transform.

  /** The bounds of `sub` on a value: 0 and the length unless given. */
  function StartOf(sub: Substring): nat { sub.start.UnwrapOr(0) }
  function EndOf(sub: Substring, value: Bytes): nat
  {
    match sub.end
    case Some(e) => e
    case None => |value|
  }

  /** `Bytes::slice(start, end)` succeeds only for `start <= end <= len`. */
  predicate InBounds(sub: Substring, value: Bytes)
  {
    StartOf(sub) <= EndOf(sub, value) <= |value|
  }

  /** Every item whose field is present has bounds that fit the field. */
  predicate AllInBounds(items: seq<Substring>, event: LogEvent)
  {
    forall i :: 0 <= i < |items| && items[i].source in event ==> InBounds(items[i], event[items[i].source])
  }

  /** The filter_map closure for one present item: the slice, or a panic. */
  function Slice(sub: Substring, value: Bytes): Outcome<Bytes>
  {
    if InBounds(sub, value) then Ok(value[StartOf(sub)..EndOf(sub, value)]) else Panic
  }

  /** The filter_map pipeline: slices of the present fields in item order;
      the first out-of-range slice panics. */
  function Slices(items: seq<Substring>, event: LogEvent): (r: Outcome<seq<Bytes>>)
    ensures !r.Err?
  {
    if items == [] then Ok([])
    else if items[0].source !in event then Slices(items[1..], event)
    else
      var first := Slice(items[0], event[items[0].source]);
      var rest := Slices(items[1..], event);
      if first.Ok? && rest.Ok? then Ok([first.value] + rest.value) else Panic
  }

  /** `Concat::transform`: the event with the target field set to the join
      of the slices; the event is always returned (Ok stands for `Some`). */
  function Transform(c: Concat, event: LogEvent): (r: Outcome<LogEvent>)
    ensures !r.Err?
    ensures r.Ok? ==> && r.value.Keys == event.Keys + {c.target}
                      && forall k :: k in event && k != c.target ==> r.value[k] == event[k]
  {
    var pieces := Slices(c.items, event);
    if pieces.Ok? then Ok(event[c.target := Text.Join(pieces.value, Utf8(c.joiner))]) else Panic
  }

  // ---------------------------------------------------------------------
  // A reference description of the value, and its agreement with the pipeline.

  /** The items whose source field exists, in order. */
  function Present(items: seq<Substring>, event: LogEvent): (p: seq<Substring>)
    ensures |p| <= |items|
    ensures forall j :: 0 <= j < |p| ==> p[j] in items && p[j].source in event
    ensures forall i :: 0 <= i < |items| && items[i].source in event ==> items[i] in p
  {
    if items == [] then []
    else if items[0].source in event then [items[0]] + Present(items[1..], event)
    else Present(items[1..], event)
  }

  /** The slice of each present item, in order. */
  function PresentSlices(items: seq<Substring>, event: LogEvent): seq<Bytes>
    requires AllInBounds(items, event)
  {
    var p := Present(items, event);
    seq(|p|, j requires 0 <= j < |p| =>
      var value := event[p[j].source];
      assert InBounds(p[j], value) by {
        var i :| 0 <= i < |items| && items[i] == p[j];
      }
      value[StartOf(p[j])..EndOf(p[j], value)])
  }

  lemma AllInBoundsCons(items: seq<Substring>, event: LogEvent)
    requires items != []
    ensures AllInBounds(items, event) <==>
      && (items[0].source in event ==> InBounds(items[0], event[items[0].source]))
      && AllInBounds(items[1..], event)
  {
    if (items[0].source in event ==> InBounds(items[0], event[items[0].source])) && AllInBounds(items[1..], event) {
      forall i | 0 <= i < |items| && items[i].source in event
        ensures InBounds(items[i], event[items[i].source])
      {
        if i > 0 { assert items[i] == items[1..][i - 1]; }
      }
    }
    if AllInBounds(items, event) {
      forall i | 0 <= i < |items[1..]| && items[1..][i].source in event
        ensures InBounds(items[1..][i], event[items[1..][i].source])
      {
        assert items[1..][i] == items[i + 1];
      }
    }
  }

  lemma PresentSlicesCons(items: seq<Substring>, event: LogEvent)
    requires items != [] && AllInBounds(items, event)
    ensures AllInBounds(items[1..], event)
    ensures items[0].source in event ==>
      PresentSlices(items, event) == [Slice(items[0], event[items[0].source]).value] + PresentSlices(items[1..], event)
    ensures items[0].source !in event ==> PresentSlices(items, event) == PresentSlices(items[1..], event)
  {
    AllInBoundsCons(items, event);
    if items[0].source in event {
      PresentSlicesKeep(items, event);
    } else {
      assert Present(items, event) == Present(items[1..], event);
    }
  }

  lemma PresentSlicesKeep(items: seq<Substring>, event: LogEvent)
    requires items != [] && AllInBounds(items, event) && AllInBounds(items[1..], event)
    requires items[0].source in event
    ensures PresentSlices(items, event) == [Slice(items[0], event[items[0].source]).value] + PresentSlices(items[1..], event)
  {
    var whole, tail := PresentSlices(items, event), PresentSlices(items[1..], event);
    var p, p' := Present(items, event), Present(items[1..], event);
    assert p == [items[0]] + p';
    forall j | 0 <= j < |tail| ensures whole[j + 1] == tail[j] {
      assert p[j + 1] == p'[j];
    }
    assert whole == [whole[0]] + tail;
  }

  /** The pipeline succeeds exactly when every present item's bounds fit,
      and then yields the slices of the present items in order. */
  lemma {:induction false} SlicesArePresentSlices(items: seq<Substring>, event: LogEvent)
    ensures Slices(items, event).Ok? <==> AllInBounds(items, event)
    ensures AllInBounds(items, event) ==> Slices(items, event) == Ok(PresentSlices(items, event))
  {
    if items != [] {
      SlicesArePresentSlices(items[1..], event);
      AllInBoundsCons(items, event);
      if AllInBounds(items, event) {
        PresentSlicesCons(items, event);
      }
    } else {
      assert PresentSlices(items, event) == [];
    }
  }

  /** What `Concat::transform` does to an event: when the present fields'
      bounds fit, the target holds the in-order join of their slices with
      the joiner's bytes, and no other field changes; otherwise it panics. */
  lemma TransformJoinsPresentSlices(c: Concat, event: LogEvent)
    ensures Transform(c, event).Ok? <==> AllInBounds(c.items, event)
    ensures AllInBounds(c.items, event) ==>
      Transform(c, event) == Ok(event[c.target := Text.Join(PresentSlices(c.items, event), Utf8(c.joiner))])
  {
    SlicesArePresentSlices(c.items, event);
  }

  /** The joiner occurs only between present pieces: the target's length is
      the slices' total plus one joiner per gap. */
  lemma TargetLength(c: Concat, event: LogEvent)
    requires AllInBounds(c.items, event) && Present(c.items, event) != []
    ensures Transform(c, event).Ok?
    ensures |Transform(c, event).value[c.target]|
         == Text.TotalLength(PresentSlices(c.items, event)) + (|Present(c.items, event)| - 1) * |Utf8(c.joiner)|
  {
    TransformJoinsPresentSlices(c, event);
    Text.JoinLength(PresentSlices(c.items, event), Utf8(c.joiner));
  }

  /** An item whose field is missing contributes nothing: dropping it leaves
      the outcome unchanged. */
  lemma {:induction false} MissingFieldSkipped(c: Concat, event: LogEvent, i: nat)
    requires i < |c.items| && c.items[i].source !in event
    ensures Transform(c.(items := c.items[..i] + c.items[i + 1..]), event) == Transform(c, event)
  {
    SlicesSkip(c.items, event, i);
  }

  lemma {:induction false} SlicesSkip(items: seq<Substring>, event: LogEvent, i: nat)
    requires i < |items| && items[i].source !in event
    ensures Slices(items[..i] + items[i + 1..], event) == Slices(items, event)
  {
    if i == 0 {
      assert items[..0] + items[1..] == items[1..];
    } else {
      var shorter := items[..i] + items[i + 1..];
      assert shorter[0] == items[0];
      assert shorter[1..] == items[1..][..i - 1] + items[1..][i..];
      SlicesSkip(items[1..], event, i - 1);
    }
  }
}
