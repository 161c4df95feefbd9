/**
 * The client form of the front end: four text fields, the plain change
 * handler used by the name and address inputs, and the two handlers that
 * run the CPF/CNPJ and telephone masks before storing the text.
 */
module ClientForm {
  import opened Text
  import opened Masks

  datatype ClienteForm = ClienteForm(nome: string, cpfCnpj: string, contato: string, endereco: string)

  /** The `name` attributes of the four inputs. */
  datatype Field = Nome | CpfCnpj | Contato | Endereco

  /** The state the form starts from: four empty strings. */
  const EmptyForm := ClienteForm("", "", "", "")

  function Get(form: ClienteForm, field: Field): string
  {
    match field
    case Nome => form.nome
    case CpfCnpj => form.cpfCnpj
    case Contato => form.contato
    case Endereco => form.endereco
  }

  /** `handleChange`: `{ ...cliente, [e.target.name]: e.target.value }`. */
  function HandleChange(form: ClienteForm, field: Field, value: string): (r: ClienteForm)
    ensures Get(r, field) == value
    ensures forall g :: g != field ==> Get(r, g) == Get(form, g)
  {
    match field
    case Nome => form.(nome := value)
    case CpfCnpj => form.(cpfCnpj := value)
    case Contato => form.(contato := value)
    case Endereco => form.(endereco := value)
  }

  /** `handleCpfCnpjChange`: the masked text goes to `cpf_cnpj`, nothing else moves. */
  function HandleCpfCnpjChange(form: ClienteForm, value: string): (r: ClienteForm)
    ensures forall g :: g != CpfCnpj ==> Get(r, g) == Get(form, g)
    ensures Digits(r.cpfCnpj) == Digits(value)
    ensures |Digits(value)| <= 11 ==> r.cpfCnpj == CpfShape(Digits(value))
    ensures |Digits(value)| > 11 ==> r.cpfCnpj == CnpjShape(Digits(value))
  {
    CpfCnpjKeepsDigits(value);
    CpfCnpjShape(value);
    form.(cpfCnpj := FormatCpfCnpj(value))
  }

  /** `handleContatoChange`: the masked text goes to `contato`, nothing else moves. */
  function HandleContatoChange(form: ClienteForm, value: string): (r: ClienteForm)
    ensures forall g :: g != Contato ==> Get(r, g) == Get(form, g)
    ensures Digits(r.contato) == Digits(value)
    ensures r.contato == PhoneShape(Digits(value))
  {
    ContatoKeepsDigits(value);
    ContatoShape(value);
    form.(contato := FormatContato(value))
  }

  /** Retyping the masked text into the field, as the browser reports it back, stores the same text. */
  lemma CpfCnpjChangeStable(form: ClienteForm, value: string)
    ensures var once := HandleCpfCnpjChange(form, value);
      HandleCpfCnpjChange(once, once.cpfCnpj) == once
  {
    CpfCnpjIdempotent(value);
  }

  lemma ContatoChangeStable(form: ClienteForm, value: string)
    ensures var once := HandleContatoChange(form, value);
      HandleContatoChange(once, once.contato) == once
  {
    ContatoIdempotent(value);
  }

  /** Clearing either masked input of a new form leaves the form as it started. */
  lemma ClearedFieldsStayEmpty()
    ensures HandleCpfCnpjChange(EmptyForm, "") == EmptyForm
    ensures HandleContatoChange(EmptyForm, "") == EmptyForm
  {
    assert Digits("") == "";
  }
}
