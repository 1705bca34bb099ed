/**
  The code generator's scan: one set of boxes over the whole network, walked in
  pointer order, that is, in no order the network determines.
*/
module MarshalDiagram {
  import opened Basics
  import opened Network
  import opened InferenceOrder

  class MarshalDiagram {
    const infer: Inference
    var boxInfer: set<Box>
    var schemas: Schemas

    constructor (infer: Inference, schemas: Schemas)
      ensures this.infer == infer && this.schemas == schemas
    {
      this.infer, this.schemas, boxInfer := infer, schemas, {};
    }

    /** Looks at the boxes left until one is ready; takes that one off the list. */
    method Scan() returns (ready: Option<Box>)
      modifies this`boxInfer
      ensures ready.Some? ==> ready.value in old(boxInfer) && Ready(schemas, ready.value)
                              && boxInfer == old(boxInfer) - {ready.value}
      ensures ready.None? ==> boxInfer == old(boxInfer) && forall b :: b in boxInfer ==> !Ready(schemas, b)
    {
      var todo := boxInfer;
      ready := None;
      while todo != {}
        invariant todo <= boxInfer == old(boxInfer)
        invariant forall b :: b in boxInfer - todo ==> !Ready(schemas, b)
        decreases |todo|
      {
        var b :| b in todo;
        todo := todo - {b};
        var inferNow := AllInsHaveSchemas(schemas, b);
        if inferNow {
          boxInfer := boxInfer - {b};
          return Some(b);
        }
      }
    }

    /** A box of an unknown external kind ends the scan with a warning only: the
        status is then good although streams are left without schemas. */
    method InferSchema(boxes: set<Box>) returns (status: bool, outcome: Outcome, ghost order: seq<Box>)
      modifies this`boxInfer, this`schemas
      ensures ScanResult(infer, boxes, old(schemas), order, outcome)
      ensures schemas == After(infer, old(schemas), order)
      ensures status <==> outcome.Complete? || (outcome.Rejected? && InferBoxOut(infer, outcome.box, schemas).Unknown?)
    {
      boxInfer := boxes;
      status, outcome, order := true, Complete, [];
      var done := false;
      while status && !done
        invariant status && !done ==> outcome == Complete && ValidOrder(infer, old(schemas), order) && Within(order, boxes)
        invariant status && !done ==> forall b :: b in boxInfer <==> b in boxes && b !in order
        invariant schemas == After(infer, old(schemas), order)
        invariant !(status && !done) ==>
                    && ScanResult(infer, boxes, old(schemas), order, outcome)
                    && (status <==> outcome.Complete? ||
                                    (outcome.Rejected? && InferBoxOut(infer, outcome.box, schemas).Unknown?))
        decreases |boxInfer|, status && !done
      {
        if boxInfer == {} {
          done := true;
        } else {
          ghost var left := boxInfer;
          var ready := Scan();
          match ready {
            case None =>
              status, outcome := false, Cyclic;
              assert exists b :: b in left;
            case Some(b) =>
              var inferred := InferBox(infer, b, schemas);
              match inferred {
                case Done(m) =>
                  OrderStep(infer, old(schemas), order, b);
                  schemas := m;
                  order := order + [b];
                case Unknown =>
                  done, outcome := true, Rejected(b);
                case Failed(_) =>
                  status, outcome := false, Rejected(b);
              }
          }
        }
      }
    }
  }
}
