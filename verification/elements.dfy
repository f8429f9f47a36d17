/** The partition step shared by the PDF and the PowerPoint extractors: the
    document's elements are split into text runs and table HTML, in element
    order.

    The element list itself comes from the layout library and is a parameter.
 */
module Elements {
  import opened Wrappers

  /** What a table element offers for rendering: no `metadata` attribute at
      all, metadata without a `text_as_html` attribute, or that attribute
      with its value (which may be None). */
  datatype TableMeta = NoMetadata | NoHtmlAttr | HtmlAttr(value: Option<string>)

  /** A partitioned element: a table, or anything else, which has a text. */
  datatype Element = Table(meta: TableMeta) | Text(text: string)

  const TablePlaceholder: string := "<table><tr><td>Table content</td></tr></table>"
  const FailedTablePlaceholder: string := "<table><tr><td>Table content (rendering failed)</td></tr></table>"

  /** The HTML recorded for one table. A present `text_as_html` is used as it
      is, even when it is empty or None; the plain placeholder stands in when
      the attribute is absent, and the "rendering failed" placeholder when
      reading the metadata raises. None stands for Python's None. */
  function TableHtml(m: TableMeta): (r: Option<string>)
    ensures r.None? <==> m == HtmlAttr(None)
    ensures m.HtmlAttr? ==> r == m.value
    ensures !m.HtmlAttr? ==> r.Some? && (r.value == TablePlaceholder <==> m == NoHtmlAttr)
    ensures m == NoMetadata ==> r == Some(FailedTablePlaceholder)
  {
    match m
    case NoMetadata => Some(FailedTablePlaceholder)
    case NoHtmlAttr => Some(TablePlaceholder)
    case HtmlAttr(v) => v
  }

  /** The text runs and table HTML of a partition, each in element order. */
  datatype Partitioned = Partitioned(texts: seq<string>, tables: seq<Option<string>>)

  /** Splits the elements: every table contributes exactly one HTML entry and
      every other element its text. */
  function Partition(els: seq<Element>): (r: Partitioned)
    ensures |r.texts| + |r.tables| == |els|
  {
    if |els| == 0 then Partitioned([], [])
    else
      var rest := Partition(els[1..]);
      match els[0]
      case Table(m) => Partitioned(rest.texts, [TableHtml(m)] + rest.tables)
      case Text(t) => Partitioned([t] + rest.texts, rest.tables)
  }

  /** Partitioning distributes over concatenation, so the result is fixed by
      what each single element contributes. */
  lemma {:induction false} PartitionAppend(a: seq<Element>, b: seq<Element>)
    ensures Partition(a + b).texts == Partition(a).texts + Partition(b).texts
    ensures Partition(a + b).tables == Partition(a).tables + Partition(b).tables
  {
    if |a| == 0 {
      assert a + b == b;
    } else {
      assert (a + b)[1..] == a[1..] + b;
      PartitionAppend(a[1..], b);
    }
  }

  /** What a single element contributes. */
  lemma PartitionSingle(e: Element)
    ensures e.Table? ==> Partition([e]) == Partitioned([], [TableHtml(e.meta)])
    ensures e.Text? ==> Partition([e]) == Partitioned([e.text], [])
  {
  }

  /** The number of table entries is the number of table elements. */
  function TableCount(els: seq<Element>): nat {
    if |els| == 0 then 0 else (if els[0].Table? then 1 else 0) + TableCount(els[1..])
  }

  lemma {:induction false} PartitionTableCount(els: seq<Element>)
    ensures |Partition(els).tables| == TableCount(els)
    ensures |Partition(els).texts| == |els| - TableCount(els)
  {
    if |els| > 0 {
      PartitionTableCount(els[1..]);
    }
  }

  /** An empty `text_as_html` is passed through rather than replaced. */
  lemma EmptyHtmlPassesThrough()
    ensures TableHtml(HtmlAttr(Some(""))) == Some("")
  {
  }
}
