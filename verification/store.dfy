/**
 * The in-memory store of server.js: the module-level array `tarefas` and the
 * bodies of the four route handlers on `/tarefas`. The HTTP layer is reduced
 * to a returned status code and response body; the id a new task gets
 * (`Date.now()`) and the id parsed from the path (`parseInt`) are parameters.
 */
module Server {
  import opened Tasks

  /** Error message of a create without text (status 400). */
  const TEXT_REQUIRED: string := "Texto da tarefa é obrigatório"
  /** Error message of an update or delete on an unknown id (status 404). */
  const NOT_FOUND: string := "Tarefa não encontrada"

  /** What a handler sends back as its JSON body, or no body at all. */
  datatype Body =
    | TaskList(tasks: seq<Task>)
    | OneTask(task: Task)
    | ErrorMessage(error: string)
    | NoBody

  /** A status code and a body. */
  datatype Response = Response(status: int, body: Body)

  class TaskStore {
    /** The array `tarefas`, in insertion order. */
    var tarefas: seq<Task>

    /** Every stored task has a non-empty text: create and update only ever store a truthy one. */
    ghost predicate Valid()
      reads this
    {
      TextsNonEmpty(tarefas)
    }

    /** The store starts empty. */
    constructor ()
      ensures Valid() && tarefas == []
    {
      tarefas := [];
    }

    /** GET /tarefas: answers with the whole array, as stored, and changes nothing. */
    method List() returns (r: Response)
      ensures r.status == 200 && r.body == TaskList(tarefas)
    {
      r := Response(200, TaskList(tarefas));
    }

    /**
     * POST /tarefas: a falsy text is refused with 400; otherwise `{ id: newId, texto }`
     * is appended at the end and returned with 201.
     */
    method Create(newId: int, texto: Option<string>) returns (r: Response)
      requires Valid()
      modifies this
      ensures Valid()
      ensures !Truthy(texto) ==> r == Response(400, ErrorMessage(TEXT_REQUIRED)) && tarefas == old(tarefas)
      ensures Truthy(texto) ==>
                r == Response(201, OneTask(Task(newId, texto.value))) &&
                |tarefas| == |old(tarefas)| + 1 &&
                tarefas[..|old(tarefas)|] == old(tarefas) &&
                tarefas[|old(tarefas)|] == r.body.task
      ensures IdsDistinct(old(tarefas)) && !HasId(old(tarefas), newId) ==> IdsDistinct(tarefas)
    {
      if !Truthy(texto) {
        return Response(400, ErrorMessage(TEXT_REQUIRED));
      }
      var novaTarefa := Task(newId, texto.value);
      if IdsDistinct(tarefas) && !HasId(tarefas, newId) {
        AppendFreshKeepsDistinct(tarefas, novaTarefa);
      }
      tarefas := tarefas + [novaTarefa];
      r := Response(201, OneTask(novaTarefa));
    }

    /**
     * PUT /tarefas/:id: 404 when no task has `id`; otherwise the first task with
     * `id` gets the new text if one is given, keeps its text if not, and is returned.
     */
    method Update(id: int, texto: Option<string>) returns (r: Response)
      requires Valid()
      modifies this
      ensures Valid()
      ensures !HasId(old(tarefas), id) ==> r == Response(404, ErrorMessage(NOT_FOUND)) && tarefas == old(tarefas)
      ensures HasId(old(tarefas), id) ==>
                var k := FindFirst(old(tarefas), id).value;
                |tarefas| == |old(tarefas)| &&
                tarefas[k].id == id &&
                tarefas[k].texto == (if Truthy(texto) then texto.value else old(tarefas)[k].texto) &&
                (forall j :: 0 <= j < |tarefas| && j != k ==> tarefas[j] == old(tarefas)[j]) &&
                r == Response(200, OneTask(tarefas[k]))
      ensures !Truthy(texto) ==> tarefas == old(tarefas)
      ensures |tarefas| == |old(tarefas)| && forall j :: 0 <= j < |tarefas| ==> tarefas[j].id == old(tarefas)[j].id
      ensures IdsDistinct(tarefas) == IdsDistinct(old(tarefas))
    {
      var index := FindFirst(tarefas, id);
      if index.None? {
        return Response(404, ErrorMessage(NOT_FOUND));
      }
      var k := index.value;
      if Truthy(texto) {
        tarefas := tarefas[k := Task(tarefas[k].id, texto.value)];
      }
      r := Response(200, OneTask(tarefas[k]));
    }

    /**
     * DELETE /tarefas/:id: 404 when no task has `id`; otherwise the array becomes
     * the tasks whose id differs from `id` and the answer is 204 with no body.
     */
    method Delete(id: int) returns (r: Response)
      requires Valid()
      modifies this
      ensures Valid()
      ensures !HasId(old(tarefas), id) ==> r == Response(404, ErrorMessage(NOT_FOUND)) && tarefas == old(tarefas)
      ensures HasId(old(tarefas), id) ==> r == Response(204, NoBody) && tarefas == RemoveId(old(tarefas), id)
      ensures !HasId(tarefas, id)
      ensures forall t :: t in tarefas <==> t in old(tarefas) && t.id != id
      ensures |tarefas| == |old(tarefas)| - CountId(old(tarefas), id)
      ensures IdsDistinct(old(tarefas)) ==> IdsDistinct(tarefas)
      ensures IdsDistinct(old(tarefas)) && HasId(old(tarefas), id) ==>
                var k := FindFirst(old(tarefas), id).value;
                tarefas == old(tarefas)[..k] + old(tarefas)[k + 1..]
    {
      var index := FindFirst(tarefas, id);
      var kept := RemoveId(tarefas, id);
      RemoveIdMembers(tarefas, id);
      RemoveIdLength(tarefas, id);
      assert TextsNonEmpty(kept) by {
        forall i | 0 <= i < |kept| ensures kept[i].texto != "" {
          assert kept[i] in tarefas;
        }
      }
      if IdsDistinct(tarefas) {
        RemoveIdKeepsDistinct(tarefas, id);
      }
      if index.None? {
        RemoveIdAbsent(tarefas, id);
        return Response(404, ErrorMessage(NOT_FOUND));
      }
      if IdsDistinct(tarefas) {
        RemoveIdDistinct(tarefas, id);
      }
      tarefas := kept;
      r := Response(204, NoBody);
    }
  }

  /**
   * A client of the store: create "A", list it, rename it to "B", delete it,
   * and list an empty store again, reasoning only from the contracts above.
   */
  method Lifecycle(x: int)
  {
    var store := new TaskStore();
    var r := store.Create(x, Some("A"));
    assert r == Response(201, OneTask(Task(x, "A")));
    r := store.List();
    assert r.body == TaskList([Task(x, "A")]);
    assert store.tarefas[0].id == x;
    r := store.Update(x, Some("B"));
    assert r == Response(200, OneTask(Task(x, "B")));
    r := store.Delete(x);
    assert r.status == 204;
    r := store.List();
    assert r.body == TaskList([]);
  }
}
