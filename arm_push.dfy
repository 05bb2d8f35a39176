/** ARM PUSH <registers>: stores registers to the stack.  The record holds
    the condition (tags[1]), the stack pointer and the register list
    (args[0], args[1]) and the thumb is-wide flag (args[2]). */
module ArmPush {
  import opened Base
  import opened ArmRecords

  /** The analysis record of one instruction: the stack locations written
      (vars) and the register values stored (xprs), as their text. */
  datatype XData = XData(vars: seq<string>, xprs: seq<string>)

  /** Construction: the record must have 2 tags and 3 args. */
  function FromRecord(r: Record): (c: Result<Record, string>)
    ensures c.Ok? <==> |r.tags| == 2 && |r.args| == 3
    ensures c.Ok? ==> c.value == r
  {
    CheckKey(r, 2, 3, "Push")
  }

  /** operands: every arg but the last (the is-wide flag), decoded by the
      dictionary. */
  function Operands(r: Record, d: ArmDictionary): (ops: seq<Record>)
    ensures |r.args| == 0 ==> ops == []
    ensures |r.args| > 0 ==> |ops| == |r.args| - 1
    ensures forall i :: 0 <= i < |ops| ==> ops[i] == d.operand(r.args[i])
  {
    if |r.args| == 0 then [] else seq(|r.args| - 1, i requires 0 <= i < |r.args| - 1 => d.operand(r.args[i]))
  }

  /** A constructed PUSH has exactly the stack pointer and the register list
      as operands. */
  lemma OperandsOfConstructed(r: Record, d: ArmDictionary)
    requires FromRecord(r).Ok?
    ensures Operands(r, d) == [d.operand(r.args[0]), d.operand(r.args[1])]
  {
  }

  /** The "v := x" assignments of the positional pairs, as many as the
      shorter of the two lists (zip stops there). */
  function Assigns(vars: seq<string>, xprs: seq<string>): (a: seq<string>)
    ensures |a| == if |vars| < |xprs| then |vars| else |xprs|
    ensures forall i :: 0 <= i < |a| ==> a[i] == vars[i] + " := " + xprs[i]
  {
    var n := if |vars| < |xprs| then |vars| else |xprs|;
    seq(n, i requires 0 <= i < n => vars[i] + " := " + xprs[i])
  }

  /** annotation: the assignments joined by "; ". */
  function Annotation(x: XData): (s: string)
    ensures |x.vars| == 0 || |x.xprs| == 0 ==> s == ""
    ensures |x.vars| > 0 && |x.xprs| > 0 ==>
              var first := x.vars[0] + " := " + x.xprs[0];
              |first| <= |s| && s[..|first|] == first
  {
    Join("; ", Assigns(x.vars, x.xprs))
  }

  /** The annotation pair by pair: empty when either list is, and otherwise
      the first assignment, followed by "; " and the annotation of the rest
      when both lists go on. */
  lemma {:induction false} AnnotationFirstPair(x: XData)
    ensures |x.vars| == 0 || |x.xprs| == 0 ==> Annotation(x) == ""
    ensures |x.vars| > 0 && |x.xprs| > 0 ==>
              var first := x.vars[0] + " := " + x.xprs[0];
              var rest := XData(x.vars[1..], x.xprs[1..]);
              Annotation(x) == if |x.vars| == 1 || |x.xprs| == 1 then first else first + "; " + Annotation(rest)
  {
    if |x.vars| > 0 && |x.xprs| > 0 {
      var a := Assigns(x.vars, x.xprs);
      assert a[1..] == Assigns(x.vars[1..], x.xprs[1..]);
    }
  }

  /** With no ';' in any variable or expression, splitting the annotation at
      ';' yields one part per pair. */
  lemma {:induction false} AnnotationCountsPairs(x: XData)
    requires forall i :: 0 <= i < |x.vars| ==> ';' !in x.vars[i]
    requires forall i :: 0 <= i < |x.xprs| ==> ';' !in x.xprs[i]
    requires |x.vars| > 0 && |x.xprs| > 0
    ensures |Split(Annotation(x), ';')| == |Assigns(x.vars, x.xprs)|
    decreases |x.vars|
  {
    var first := x.vars[0] + " := " + x.xprs[0];
    assert ';' !in first by {
      assert forall j :: 0 <= j < |first| ==> first[j] != ';' by {
        forall j | 0 <= j < |first|
          ensures first[j] != ';'
        {
          if j < |x.vars[0]| {
            assert first[j] == x.vars[0][j];
          } else if j >= |x.vars[0]| + 4 {
            assert first[j] == x.xprs[0][j - |x.vars[0]| - 4];
          }
        }
      }
    }
    AnnotationFirstPair(x);
    if |x.vars| == 1 || |x.xprs| == 1 {
      SplitNoSeparator(first, ';');
    } else {
      var rest := XData(x.vars[1..], x.xprs[1..]);
      var tail := Annotation(rest);
      assert Annotation(x) == first + [';'] + ([' '] + tail);
      SplitFirst(first, [' '] + tail, ';');
      assert ([' '] + tail)[1..] == tail;
      AnnotationCountsPairs(rest);
    }
  }
}
