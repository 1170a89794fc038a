/**
 * ProcessDocumentParts: the order of the two passes over the main document body. The
 * table pass runs first, on the descendant list as it stands; the content pass then
 * runs over the body as the table pass left it.
 */
module MergeEngine {
  import opened DataTree
  import opened Document
  import opened TablePopulate
  import opened ContentMerge
  import opened TablePass

  /** A missing body leaves everything as it is. Otherwise every paragraph the content
      pass visits that was already in the document has first had its routed Table
      placeholders cut out, then its Content placeholders substituted once per visit; a
      table no Table placeholder reaches keeps its rows. */
  method ProcessDocumentParts(body: Body?, root: Element)
    modifies if body == null then {} else ElemParagraphs(Descendants(body.blocks))
    modifies if body == null then {} else ElemTables(Descendants(body.blocks))
    ensures body != null ==>
      var all := old(Descendants(body.blocks)); var fs := old(PassFinds(all));
      forall p :: p in ContentOrder(body.blocks) && p in ElemParagraphs(all) ==>
        p.children == RewriteN(root, StripAll(old(p.children), Stripped(fs, all, p)), Visits(ContentOrder(body.blocks), p))
    ensures body != null ==>
      var all := old(Descendants(body.blocks)); var fs := old(PassFinds(all));
      forall t :: t in ElemTables(all) && !Targeted(fs, all, t) ==> t.rows == old(t.rows)
  {
    hide StripAll, Stripped, Targeted, Updated, TemplateTexts, PassFinds, RewriteN, Visits, Descendants, ElemParagraphs;
    if body == null {
      return;
    }
    var blocks := body.blocks;
    ghost var all := Descendants(blocks);
    ghost var fs := PassFinds(all);
    ElemsAllocated(all);
    FindAndProcessTablePlaceholders(body, root);
    ghost var order := ContentOrder(blocks);
    ghost var stripped := map p | p in ElemParagraphs(all) :: p.children;
    assert forall p :: p in ElemParagraphs(all) ==> stripped[p] == StripAll(old(p.children), Stripped(fs, all, p));
    ProcessBodyContent(body, root);
    assert ContentOrder(blocks) == order;
    forall p | p in order && p in ElemParagraphs(all) ensures p.children == RewriteN(root, stripped[p], Visits(order, p)) {
    }
  }
}
