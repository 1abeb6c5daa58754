/**
 * The client-side application store: the loaded repository, its graph, the
 * selected file, three loading flags and the last error, with one setter per
 * field, a partial merge for the loading flags and a reset to the initial
 * state.
 */
module AppStore {
  import opened Wrappers
  import opened ParseService
  import opened GraphService

  datatype Repository = Repository(owner: string, name: string, url: string)

  datatype SelectedFile = SelectedFile(path: string, content: string, language: Language)

  datatype LoadingState = LoadingState(cloning: bool, loadingGraph: bool, loadingFile: bool)

  /** `Partial<LoadingState>`: the flags a `setLoading` call names. */
  datatype LoadingPatch = LoadingPatch(cloning: Option<bool>, loadingGraph: Option<bool>, loadingFile: Option<bool>)

  datatype ErrorKind = Network | Validation | Api | Unknown

  datatype ErrorState = ErrorState(message: string, kind: ErrorKind)

  /** A snapshot of every field of the store. */
  datatype StoreState = StoreState(
    repository: Option<Repository>,
    graphData: Option<FileGraph>,
    selectedFile: Option<SelectedFile>,
    loading: LoadingState,
    error: Option<ErrorState>)

  const NotLoading: LoadingState := LoadingState(false, false, false)

  /** Nothing loaded, nothing selected, no flag raised, no error. */
  const InitialState: StoreState := StoreState(None, None, None, NotLoading, None)

  const NoPatch: LoadingPatch := LoadingPatch(None, None, None)

  /** `{ ...state.loading, ...loading }`: the flags the patch names take its values, the others keep theirs. */
  function Merge(loading: LoadingState, patch: LoadingPatch): (r: LoadingState)
    ensures patch.cloning.Some? ==> r.cloning == patch.cloning.value
    ensures patch.cloning.None? ==> r.cloning == loading.cloning
    ensures patch.loadingGraph.Some? ==> r.loadingGraph == patch.loadingGraph.value
    ensures patch.loadingGraph.None? ==> r.loadingGraph == loading.loadingGraph
    ensures patch.loadingFile.Some? ==> r.loadingFile == patch.loadingFile.value
    ensures patch.loadingFile.None? ==> r.loadingFile == loading.loadingFile
  {
    LoadingState(patch.cloning.GetOr(loading.cloning),
                 patch.loadingGraph.GetOr(loading.loadingGraph),
                 patch.loadingFile.GetOr(loading.loadingFile))
  }

  /** Two patches applied in turn: the later one wins on each flag it names. */
  function Then(first: LoadingPatch, second: LoadingPatch): LoadingPatch {
    LoadingPatch(if second.cloning.Some? then second.cloning else first.cloning,
                 if second.loadingGraph.Some? then second.loadingGraph else first.loadingGraph,
                 if second.loadingFile.Some? then second.loadingFile else first.loadingFile)
  }

  /** An empty patch changes nothing. */
  lemma EmptyPatchKeeps(loading: LoadingState)
    ensures Merge(loading, NoPatch) == loading
  {
  }

  /** Merging is idempotent: the same patch twice is the same patch once. */
  lemma MergeIdempotent(loading: LoadingState, patch: LoadingPatch)
    ensures Merge(Merge(loading, patch), patch) == Merge(loading, patch)
  {
  }

  /** Two merges in a row are one merge of the combined patch. */
  lemma MergeComposes(loading: LoadingState, first: LoadingPatch, second: LoadingPatch)
    ensures Merge(Merge(loading, first), second) == Merge(loading, Then(first, second))
  {
  }

  /** A patch naming every flag replaces the whole loading state. */
  lemma FullPatchReplaces(loading: LoadingState, target: LoadingState)
    ensures Merge(loading, LoadingPatch(Some(target.cloning), Some(target.loadingGraph), Some(target.loadingFile))) == target
  {
  }

  class Store {
    var repository: Option<Repository>
    var graphData: Option<FileGraph>
    var selectedFile: Option<SelectedFile>
    var loading: LoadingState
    var error: Option<ErrorState>

    function State(): StoreState
      reads this
    {
      StoreState(repository, graphData, selectedFile, loading, error)
    }

    constructor()
      ensures State() == InitialState
    {
      repository := None;
      graphData := None;
      selectedFile := None;
      loading := NotLoading;
      error := None;
    }

    method SetRepository(repo: Option<Repository>)
      modifies this
      ensures State() == old(State()).(repository := repo)
    {
      repository := repo;
    }

    method SetGraphData(graph: Option<FileGraph>)
      modifies this
      ensures State() == old(State()).(graphData := graph)
    {
      graphData := graph;
    }

    method SetSelectedFile(file: Option<SelectedFile>)
      modifies this
      ensures State() == old(State()).(selectedFile := file)
    {
      selectedFile := file;
    }

    /** `setLoading`: only the named flags change. */
    method SetLoading(patch: LoadingPatch)
      modifies this
      ensures State() == old(State()).(loading := Merge(old(loading), patch))
    {
      loading := Merge(loading, patch);
    }

    method SetError(err: Option<ErrorState>)
      modifies this
      ensures State() == old(State()).(error := err)
    {
      error := err;
    }

    /** `reset`: back to the initial state, whatever came before. */
    method Reset()
      modifies this
      ensures State() == InitialState
    {
      repository := None;
      graphData := None;
      selectedFile := None;
      loading := NotLoading;
      error := None;
    }
  }
}
