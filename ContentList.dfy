/**
 * The table component of src/components/content/ContentList.tsx: the two
 * status mappings of its chips and the choice between the loading
 * spinner, the "nothing found" notice and the table.
 */
module ContentList {
  import opened Types

  /** `getStatusColor`: the chip colour for a status string. */
  function StatusColor(status: string): (color: string)
    ensures status == "published" <==> color == "success"
    ensures status == "draft" <==> color == "warning"
    ensures status == "archived" <==> color == "error"
    ensures color in {"success", "warning", "error", "default"}
  {
    match status
    case "published" => "success"
    case "draft" => "warning"
    case "archived" => "error"
    case _ => "default"
  }

  /** `getStatusLabel`: the Portuguese label for a status string. */
  function StatusLabel(status: string): (text: string)
    ensures status == "published" ==> text == "Publicado"
    ensures status == "draft" ==> text == "Rascunho"
    ensures status == "archived" ==> text == "Arquivado"
    ensures status !in {"published", "draft", "archived"} ==> text == status
  {
    match status
    case "published" => "Publicado"
    case "draft" => "Rascunho"
    case "archived" => "Arquivado"
    case _ => status
  }

  /** The two mappings agree on which strings they know: an unknown status gets the default colour and its own text as label. */
  lemma {:induction false} ColorDefaultIffLabelVerbatim(status: string)
    ensures StatusColor(status) == "default" <==> StatusLabel(status) == status
  {
    if status == "published" {
      assert StatusLabel(status) != status by { assert "Publicado"[0] != "published"[0]; }
    } else if status == "draft" {
      assert StatusLabel(status) != status by { assert |"Rascunho"| != |"draft"|; }
    } else if status == "archived" {
      assert StatusLabel(status) != status by { assert "Arquivado"[0] != "archived"[0]; }
    }
  }

  /** Every value of the `status` union gets its own colour, never the default one. */
  lemma StatusesColoured(s: Status)
    ensures StatusColor(StatusName(s)) != "default"
    ensures StatusLabel(StatusName(s)) != StatusName(s)
  {
    ColorDefaultIffLabelVerbatim(StatusName(s));
  }

  datatype View = Spinner | EmptyNotice | Table(rows: seq<Content>)

  /** What the component renders for its props. */
  function SelectView(isLoading: bool, contents: seq<Content>): (v: View)
    ensures v.Spinner? <==> isLoading
    ensures v.EmptyNotice? <==> !isLoading && contents == []
    ensures v.Table? <==> !isLoading && contents != []
    ensures v.Table? ==> v.rows == contents
  {
    if isLoading then Spinner
    else if |contents| == 0 then EmptyNotice
    else Table(contents)
  }
}
