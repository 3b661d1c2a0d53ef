/**
 * The seed data the store starts from: five departments, seven users, three
 * processes, five signature documents and two process types.
 */
module Seed {
  import opened Common
  import opened Types

  const HumanResources := Department(1, "Recursos Humanos", "RH", "Administrativo")
  const Finance := Department(2, "Financeiro", "FIN", "Administrativo")
  const InformationTechnology := Department(3, "Tecnologia da Informação", "TI", "Operacional")
  const Cabinet := Department(4, "Gabinete", "GAB", "Estratégico")
  const Marketing := Department(5, "Marketing", "MKT", "Comercial")

  const Departments: seq<Department> := [HumanResources, Finance, InformationTechnology, Cabinet, Marketing]

  const AdminUser := User(0, "Admin SAAE", "Admin", "https://i.pravatar.cc/100?u=admin", 3, 3, [1, 2, 3, 4, 5],
    "admin@saae.proc", "(99) 99999-9999", "Sede Administrativa", "00.000.000/0001-00",
    [ConnectedDevice("dev-admin", Desktop, "Edge", "Windows", "Brasília, Brasil", "2024-08-01 11:00", true)],
    UserType.Admin, UserPermissions(true, ["Admin", "Diretor"], AllDepartments))

  const Ana := User(1, "Ana Oliveira", "Analista de Processos", "https://i.pravatar.cc/100?u=ana", 1, 1, [1, 4],
    "ana.oliveira@empresa.com", "(11) 98765-4321", "Rua das Flores, 123, São Paulo, SP", "111.222.333-44",
    [ConnectedDevice("dev1", Desktop, "Chrome", "Windows", "São Paulo, Brasil", "2024-08-01 10:30", true),
     ConnectedDevice("dev2", Mobile, "Safari", "iOS", "Rio de Janeiro, Brasil", "2024-07-31 20:15", false)],
    UserType.Internal, UserPermissions(true, ["Analista"], DepartmentIds([1])))

  const Carlos := User(2, "Carlos Silva", "Coordenador", "https://i.pravatar.cc/100?u=carlos", 4, 4, [4],
    "carlos.silva@empresa.com", "(21) 91234-5678", "Avenida Principal, 456, Rio de Janeiro, RJ", "222.333.444-55",
    [ConnectedDevice("dev3", Desktop, "Firefox", "macOS", "Rio de Janeiro, Brasil", "2024-08-01 09:00", true)],
    UserType.Internal, UserPermissions(true, ["Coordenador"], DepartmentIds([4, 5])))

  const Beatriz := User(3, "Beatriz Costa", "Chefe de Gabinete", "https://i.pravatar.cc/100?u=beatriz", 4, 4, [4],
    "beatriz.costa@empresa.com", "(31) 95555-8888", "Praça da Matriz, 789, Belo Horizonte, MG", "333.444.555-66",
    [], UserType.Internal, UserPermissions(false, [], DepartmentIds([])))

  const Daniel := User(4, "Daniel Martins", "Estagiário", "https://i.pravatar.cc/100?u=daniel", 4, 4, [4],
    "daniel.martins@empresa.com", "(41) 94444-7777", "Alameda dos Anjos, 101, Curitiba, PR", "444.555.666-77",
    [], UserType.Internal, UserPermissions(false, [], DepartmentIds([])))

  const Ricardo := User(5, "Ricardo Souza", "Advogado", "https://i.pravatar.cc/100?u=ricardo", 1, 1, [1],
    "ricardo.souza@empresa.com", "(51) 93333-6666", "Travessa dos Ventos, 212, Porto Alegre, RS", "555.666.777-88",
    [], UserType.Internal, UserPermissions(true, ["Advogado", "Parecerista"], AllDepartments))

  const FinanceUser := User(6, "Usuário Financeiro", "Analista Financeiro", "https://i.pravatar.cc/100?u=financeiro", 2, 2, [2],
    "financeiro@saae.proc", "(88) 88888-8888", "Setor Financeiro", "999.888.777-66",
    [], UserType.Internal, UserPermissions(false, [], DepartmentIds([])))

  const Users: seq<User> := [AdminUser, Ana, Carlos, Beatriz, Daniel, Ricardo, FinanceUser]

  /** A file document as the seed writes it. */
  function FileDocument(id: int, name: string, kind: FileKind, addedAt: string, addedBy: string, isPublic: bool): ProcessDocument {
    ProcessDocument(id, File, name, addedAt, addedBy, Some(kind), Some(isPublic),
      None, None, None, None, None, None, None)
  }

  const Process00123 := Process("2024-00123", 1, "Contratação de Novo Analista de Marketing Digital", "Juliana Costa",
    "123.456.789-10", "Recrutamento e Seleção", InProgress, HumanResources, "2024-07-29", true, false,
    [ProcessMovement(1, "2024-07-28", "14:30", "Protocolo", "Recursos Humanos", Distribution, "Sistema", None, true),
     ProcessMovement(2, "2024-07-29", "09:15", "Recursos Humanos", "Recursos Humanos", Analysis, "Ana Oliveira",
       Some("Verificação inicial dos documentos do candidato."), false)],
    [FileDocument(1, "Formulário de Requisição.pdf", Pdf, "2024-07-28", "Sistema", true),
     FileDocument(2, "Currículo do Candidato.pdf", Pdf, "2024-07-28", "Juliana Costa", false),
     FileDocument(3, "Nota sobre entrevista", Note, "2024-07-29", "Ana Oliveira", false)],
    ["Carlos Silva", "Mariana Almeida"], None,
    Some(map["field1" := TextValue("2024-09-01"), "field2" := NumberValue(15),
             "field3" := TextValue("Contratação urgente para a nova campanha de marketing.")]))

  const Process00124 := Process("2024-00124", 2, "Aquisição de 10 Licenças de Software de Design", "Departamento de Marketing",
    "N/A - Interno", "Compras", InProgress, Cabinet, "2024-07-27", false, true,
    [ProcessMovement(1, "2024-07-27", "10:00", "Marketing", "Gabinete", Send, "Pedro Martins", None, true)],
    [FileDocument(1, "Orçamento A.pdf", Pdf, "2024-07-27", "Pedro Martins", false),
     FileDocument(2, "Orçamento B.pdf", Pdf, "2024-07-27", "Pedro Martins", false)],
    [], Some(["Carlos Silva"]), None)

  const Process00125 := Process("2024-00125", 2, "Análise de Contrato Fornecedor XPTO", "Departamento de Compras",
    "N/A - Interno", "Contratos", InProgress, Cabinet, "2024-07-30", false, false,
    [ProcessMovement(1, "2024-07-30", "11:00", "Compras", "Gabinete", Send, "Sistema", None, true)],
    [FileDocument(1, "Minuta Contratual.pdf", Pdf, "2024-07-30", "Sistema", false)],
    [], None, None)

  const Processes: seq<Process> := [Process00123, Process00124, Process00125]

  const ServiceContract := SignatureDocument(1, "Contrato de Prestação de Serviços TI.pdf", 1, "2024-07-28", true, FileDetails(PDF, 1.2),
    [Signatory("1", "Ana Oliveira", SignatoryType.Internal, Signed),
     Signatory("2", "Carlos Silva", SignatoryType.Internal, SignatoryStatus.Pending),
     Signatory("6", "Usuário Financeiro", SignatoryType.Internal, SignatoryStatus.Pending)])

  const MarketingProposal := SignatureDocument(2, "Proposta Comercial - Marketing.docx", 2, "2024-07-29", false, FileDetails(DOCX, 0.8),
    [Signatory("2", "Carlos Silva", SignatoryType.Internal, Signed),
     Signatory("externo@cliente.com", "Cliente Externo", External, SignatoryStatus.Pending)])

  const ConfidentialityTerm := SignatureDocument(3, "Termo de Confidencialidade (NDA).pdf", 5, "2024-07-30", false, FileDetails(PDF, 0.5),
    [Signatory("5", "Ricardo Souza", SignatoryType.Internal, Signed)])

  const FinancialReport := SignatureDocument(4, "Relatório Financeiro Q3.pdf", 6, "2024-08-01", true, FileDetails(PDF, 2.5),
    [Signatory("6", "Usuário Financeiro", SignatoryType.Internal, Signed),
     Signatory("2", "Carlos Silva", SignatoryType.Internal, Signed)])

  const HomeOfficePolicy := SignatureDocument(5, "Política de Home Office.docx", 1, "2024-08-01", false, FileDetails(DOCX, 0.2),
    [Signatory("1", "Ana Oliveira", SignatoryType.Internal, SignatoryStatus.Pending)])

  const SignatureDocs: seq<SignatureDocument> :=
    [ServiceContract, MarketingProposal, ConfidentialityTerm, FinancialReport, HomeOfficePolicy]

  const ProcessTypes: seq<ProcessType> := [
    ProcessType(1, "Solicitação de Férias", InternalType, CoverConfig("Capa Padrão de Férias", true),
      [FormField("field1", "Data de Início", Date, true),
       FormField("field2", "Quantidade de Dias", Number, true),
       FormField("field3", "Observações", TextArea, false)],
      [AttachmentConfig("att1", "Formulário de Férias Assinado", PdfAttachment, true)]),
    ProcessType(2, "Requisição de Compra", InternalType, CoverConfig("Capa Padrão de Compras", true),
      [FormField("field_compra_1", "Item a ser comprado", Text, true),
       FormField("field_compra_2", "Justificativa", TextArea, true),
       FormField("field_compra_3", "Valor Estimado (R$)", Number, true)],
      [AttachmentConfig("att_compra_1", "Orçamento 1", PdfAttachment, true),
       AttachmentConfig("att_compra_2", "Orçamento 2", PdfAttachment, false)])
  ]
}
