/**
 * The few zod checks the schemas use, stated as data: a schema (`z.object`)
 * is a list of field specifications, and the issues zod reports for an object
 * are those of each field in declaration order.
 */
module Zod {
  import opened JsValues
  import opened Text

  /** Why zod rejected a value (its `message`). */
  datatype Reason = Required | Expected(expected: string, received: string) | InvalidDate

  /** One entry of `ZodError.errors`: where (`path`) and why. */
  datatype Issue = Issue(path: seq<string>, reason: Reason)

  /** How a field treats `undefined`: an error, allowed (`.optional()`), or replaced (`.default(x)`). */
  datatype Presence = Mandatory | Optional | HasDefault

  /**
   * `z.string()`, `z.boolean()`, `z.date()`, `z.array(z.string())` and
   * `z.coerce.date()`.
   */
  datatype Kind = StringKind | BooleanKind | DateKind | StringArrayKind | CoercedDateKind

  datatype FieldSpec = FieldSpec(key: string, kind: Kind, presence: Presence)

  /** The shape of a `z.object({...})`, in declaration order. */
  type Shape = seq<FieldSpec>

  function Message(r: Reason): string
  {
    match r
    case Required => "Required"
    case Expected(e, got) => "Expected " + e + ", received " + got
    case InvalidDate => "Invalid date"
  }

  /** What a field accepts, stated directly. */
  predicate FieldAccepts(f: FieldSpec, v: Value, parse: DateParser)
  {
    (v.Undefined? && f.presence != Mandatory)
    || match f.kind
       case StringKind => v.Str?
       case BooleanKind => v.Bool?
       case DateKind => v.DateVal?
       case StringArrayKind => v.Arr? && forall j :: 0 <= j < |v.items| ==> v.items[j].Str?
       case CoercedDateKind => NewDate(v, parse).Some?
  }

  /** A single-type check: no issue, "Required", or "Expected <type>, received <type>". */
  function TypeIssue(key: string, v: Value, ok: bool, expected: string): (r: seq<Issue>)
    ensures r == [] <==> ok
    ensures |r| <= 1 && (r != [] ==> r[0].path == [key])
  {
    if ok then []
    else if v.Undefined? then [Issue([key], Required)]
    else [Issue([key], Expected(expected, TypeName(v)))]
  }

  /** The issue for a non-string element at position `index` of the array under `key`. */
  function BadElement(key: string, v: Value, index: nat): Issue
  {
    Issue([key, NatToString(index)], if v.Undefined? then Required else Expected("string", TypeName(v)))
  }

  /**
   * The element checks of `z.array(z.string())` for the elements from
   * position `offset` on; `ElementIssuesExactly` says which issues they are.
   */
  function ElementIssues(key: string, items: seq<Value>, offset: nat): (r: seq<Issue>)
    ensures r == [] <==> forall j :: 0 <= j < |items| ==> items[j].Str?
    ensures forall i :: i in r ==> |i.path| == 2 && i.path[0] == key
  {
    if items == [] then []
    else
      var first := TypeIssue(key, items[0], items[0].Str?, "string");
      var reported := if first == [] then [] else [Issue([key, NatToString(offset)], first[0].reason)];
      assert forall j :: 1 <= j < |items| ==> items[j] == items[1..][j - 1];
      reported + ElementIssues(key, items[1..], offset + 1)
  }

  /** An issue exactly for each non-string element, at path `[key, <its index>]`. */
  lemma {:induction false} ElementIssuesExactly(key: string, items: seq<Value>, offset: nat)
    ensures forall i :: i in ElementIssues(key, items, offset) <==> BadAt(key, items, offset, i)
  {
    if items != [] {
      var rest := items[1..];
      ElementIssuesExactly(key, rest, offset + 1);
      ElementIssuesUnfold(key, items, offset);
      forall i
        ensures i in ElementIssues(key, items, offset) <==> BadAt(key, items, offset, i)
      {
        if i in ElementIssues(key, rest, offset + 1) {
          var j :| 0 <= j < |rest| && !rest[j].Str? && i == BadElement(key, rest[j], offset + 1 + j);
          assert items[j + 1] == rest[j];
          assert BadAt(key, items, offset, i);
        }
        if BadAt(key, items, offset, i) {
          var j :| 0 <= j < |items| && !items[j].Str? && i == BadElement(key, items[j], offset + j);
          if j > 0 {
            assert rest[j - 1] == items[j];
            assert BadAt(key, rest, offset + 1, i);
          }
        }
      }
    }
  }

  /** `i` is the issue of some non-string element of `items`, numbered from `offset`. */
  predicate BadAt(key: string, items: seq<Value>, offset: nat, i: Issue)
  {
    exists j :: 0 <= j < |items| && !items[j].Str? && i == BadElement(key, items[j], offset + j)
  }

  /** One step of the element checks: the first element's issue, then the rest. */
  lemma ElementIssuesUnfold(key: string, items: seq<Value>, offset: nat)
    requires items != []
    ensures ElementIssues(key, items, offset)
            == (if items[0].Str? then [] else [BadElement(key, items[0], offset)]) + ElementIssues(key, items[1..], offset + 1)
  {
  }

  /** The issues zod reports for one field whose value is `v`. */
  function FieldIssues(f: FieldSpec, v: Value, parse: DateParser): (r: seq<Issue>)
    ensures r == [] <==> FieldAccepts(f, v, parse)
    ensures forall i :: i in r ==> |i.path| >= 1 && i.path[0] == f.key
    ensures f.kind != StringArrayKind ==> |r| <= 1 && (r != [] ==> r[0].path == [f.key])
  {
    if v.Undefined? && f.presence != Mandatory then []
    else
      match f.kind
      case StringKind => TypeIssue(f.key, v, v.Str?, "string")
      case BooleanKind => TypeIssue(f.key, v, v.Bool?, "boolean")
      case DateKind => TypeIssue(f.key, v, v.DateVal?, "date")
      case StringArrayKind =>
        if v.Arr? then ElementIssues(f.key, v.items, 0)
        else TypeIssue(f.key, v, false, "array")
      case CoercedDateKind =>
        if NewDate(v, parse).Some? then [] else [Issue([f.key], InvalidDate)]
  }

  /** `shape.parse(data)`'s issues: every field's, in declaration order. */
  function ObjectIssues(shape: Shape, data: Frontmatter, parse: DateParser): seq<Issue>
  {
    if shape == [] then []
    else FieldIssues(shape[0], Get(data, shape[0].key), parse) + ObjectIssues(shape[1..], data, parse)
  }

  predicate DistinctKeys(shape: Shape)
  {
    forall i, j :: 0 <= i < j < |shape| ==> shape[i].key != shape[j].key
  }

  /** Field `j` of the shape accepts its value in `data`. */
  predicate FieldOk(shape: Shape, data: Frontmatter, parse: DateParser, j: nat)
    requires j < |shape|
  {
    FieldAccepts(shape[j], Get(data, shape[j].key), parse)
  }

  /** The object is accepted exactly when every field is. */
  lemma {:induction false} ObjectAccepts(shape: Shape, data: Frontmatter, parse: DateParser)
    ensures ObjectIssues(shape, data, parse) == [] <==>
              forall j :: 0 <= j < |shape| ==> FieldOk(shape, data, parse, j)
  {
    if shape != [] {
      ObjectAccepts(shape[1..], data, parse);
      forall j | 1 <= j < |shape|
        ensures FieldOk(shape[1..], data, parse, j - 1) == FieldOk(shape, data, parse, j)
      {
        assert shape[1..][j - 1] == shape[j];
      }
      var rest := forall j :: 0 <= j < |shape[1..]| ==> FieldOk(shape[1..], data, parse, j);
      var all := forall j :: 0 <= j < |shape| ==> FieldOk(shape, data, parse, j);
      assert all <==> FieldOk(shape, data, parse, 0) && rest by {
        if FieldOk(shape, data, parse, 0) && rest {
          forall j | 0 <= j < |shape| ensures FieldOk(shape, data, parse, j) {
            if j > 0 { assert FieldOk(shape[1..], data, parse, j - 1); }
          }
        }
        if all {
          forall j | 0 <= j < |shape[1..]| ensures FieldOk(shape[1..], data, parse, j) {
            assert FieldOk(shape, data, parse, j + 1);
          }
        }
      }
    }
  }

  /** Each field's issues appear among the object's. */
  lemma {:induction false} FieldIssuesReported(shape: Shape, data: Frontmatter, parse: DateParser, j: nat)
    requires j < |shape|
    ensures forall i :: i in FieldIssues(shape[j], Get(data, shape[j].key), parse) ==> i in ObjectIssues(shape, data, parse)
  {
    if j > 0 {
      FieldIssuesReported(shape[1..], data, parse, j - 1);
    }
  }

  /** Every issue's path starts with the key of one of the shape's fields. */
  lemma {:induction false} IssueKeys(shape: Shape, data: Frontmatter, parse: DateParser)
    ensures forall i :: i in ObjectIssues(shape, data, parse) ==>
              |i.path| >= 1 && exists j :: 0 <= j < |shape| && i.path[0] == shape[j].key
  {
    if shape != [] {
      IssueKeys(shape[1..], data, parse);
      assert forall j :: 1 <= j < |shape| ==> shape[j] == shape[1..][j - 1];
    }
  }

  /** An issue whose path starts with a field's key comes from that field (keys being distinct). */
  lemma {:induction false} IssueFromOwnField(shape: Shape, data: Frontmatter, parse: DateParser, j: nat, i: Issue)
    requires DistinctKeys(shape) && j < |shape|
    requires i in ObjectIssues(shape, data, parse) && |i.path| >= 1 && i.path[0] == shape[j].key
    ensures i in FieldIssues(shape[j], Get(data, shape[j].key), parse)
  {
    if i !in FieldIssues(shape[0], Get(data, shape[0].key), parse) {
      assert i in ObjectIssues(shape[1..], data, parse);
      IssueKeys(shape[1..], data, parse);
      var m :| 0 <= m < |shape[1..]| && i.path[0] == shape[1..][m].key;
      assert shape[1..][m] == shape[m + 1];
      assert j != 0;
      IssueFromOwnField(shape[1..], data, parse, j - 1, i);
    }
  }

  /** The elements of a checked string array. */
  function Strings(items: seq<Value>): (r: seq<string>)
    ensures |r| == |items|
    ensures forall j :: 0 <= j < |items| && items[j].Str? ==> r[j] == items[j].s
  {
    if items == [] then []
    else [if items[0].Str? then items[0].s else ""] + Strings(items[1..])
  }
}
